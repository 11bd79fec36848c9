/** Cache-exchange pushes (module-camd35-cacheex.c, module-cacheex.c): the push message, the
    hop limits, and control words travelling through a network of servers. */
module CachePush {
  import opened Bytes
  import opened Cards
  import opened NodeCodec
  import CwCycle
  import CwCycleList

  type Block16 = s: seq<byte> | |s| == 16 witness [0, 0, 0, 0, 0, 0, 0, 0, 0, 0, 0, 0, 0, 0, 0, 0]

  const E_FOUND: int := 0
  const E_CACHEEX: int := 3
  const E_NOTFOUND: int := 4
  const E_UNHANDLED: int := 100

  /** The parts of an ECM request that are pushed. */
  datatype Request = Request(
    rc: int, srvid: nat, caid: nat, prid: nat, cycletime: byte, nextCw: byte, ecm0: byte,
    ecmd5: Block16, cspHash: nat, cw: Block16, lastNodes: seq<NodeId>, localGenerated: bool)

  // ----- the message -----

  /** CSP_HASH_SWAP: the four bytes of a 32-bit number in opposite order. */
  function HashSwap(n: nat): nat {
    n % 0x100 * 0x1000000 + n / 0x100 % 0x100 * 0x10000 + n / 0x10000 % 0x100 * 0x100 + n / 0x1000000 % 0x100
  }

  lemma HashSwapTwice(n: nat)
    requires n < 0x100000000
    ensures HashSwap(n) < 0x100000000 && HashSwap(HashSwap(n)) == n
  {
    hide HashSwap;
    var a, b, c, d := n / 0x1000000, n / 0x10000 % 0x100, n / 0x100 % 0x100, n % 0x100;
    FourDigits(n);
    SwapDigits(a, b, c, d);
    SwapDigits(d, c, b, a);
  }

  lemma FourDigits(n: nat)
    ensures n == n / 0x1000000 * 0x1000000 + n / 0x10000 % 0x100 * 0x10000 + n / 0x100 % 0x100 * 0x100 + n % 0x100
  {
    assert n / 0x10000 == n / 0x100 / 0x100;
    assert n / 0x1000000 == n / 0x10000 / 0x100;
  }

  lemma SwapDigits(a: nat, b: nat, c: nat, d: nat)
    requires a < 0x100 && b < 0x100 && c < 0x100 && d < 0x100
    ensures HashSwap(a * 0x1000000 + b * 0x10000 + c * 0x100 + d) == d * 0x1000000 + c * 0x10000 + b * 0x100 + a
  {
    var n := a * 0x1000000 + b * 0x10000 + c * 0x100 + d;
    Digit(a * 0x10000 + b * 0x100 + c, d, 0x100);
    Digit(a * 0x100 + b, c * 0x100 + d, 0x10000);
    Digit(a, b * 0x10000 + c * 0x100 + d, 0x1000000);
    Digit(a * 0x100 + b, c, 0x100);
    Digit(a, b, 0x100);
  }

  lemma Digit(q: nat, r: nat, base: nat)
    requires r < base && (base == 0x100 || base == 0x10000 || base == 0x1000000)
    ensures (q * base + r) / base == q && (q * base + r) % base == r
  {
    if base == 0x100 {
      assert q == (q * 0x100 + r) / 0x100;
    } else if base == 0x10000 {
      assert q == (q * 0x10000 + r) / 0x10000;
    } else {
      assert q == (q * 0x1000000 + r) / 0x1000000;
    }
  }

  /** Cycle time and next half in one byte: bit 7 carries the half. */
  function CycleByte(cycletime: byte, next: byte): byte {
    if cycletime == 0 || next >= 2 then 0
    else if next == 1 && cycletime < 0x80 then cycletime + 0x80
    else cycletime
  }

  function CycleOf(b: byte): (byte, byte) {
    if b >= 0x80 then (b - 0x80, 1) else (b, 0)
  }

  /** The pair comes back exactly if the cycle time leaves bit 7 free. */
  lemma CycleBackIff(cycletime: byte, next: byte)
    requires cycletime != 0 && next < 2
    ensures CycleOf(CycleByte(cycletime, next)) == (cycletime, next) <==> cycletime < 0x80
  {
  }

  /** What the cycle checker tells a request fits: in every run in order of time, the receiver of a
      push gets the cycle time and the half that the checker announced. */
  lemma {:induction false} AnnouncedCycleComesBack(cfg: CwCycle.Config, evs: seq<CwCycleList.Event>, r: CwCycle.Request, from: int)
    requires CwCycleList.Timely(evs, from, r.now) && from <= r.now
    ensures
      var a := CwCycleList.Answered(cfg, CwCycleList.DoAll(cfg, CwCycleList.EMPTY, evs), r);
      a.outCycletime > 0 ==>
        a.outCycletime < 0x80 && 0 <= a.outNext < 2
        && CycleOf(CycleByte(a.outCycletime, a.outNext)) == (a.outCycletime, a.outNext)
  {
    hide CwCycleList.Answered, CwCycleList.DoAll;
    CwCycleList.EveryAnnouncement(cfg, evs, r, from);
    var a := CwCycleList.Answered(cfg, CwCycleList.DoAll(cfg, CwCycleList.EMPTY, evs), r);
    if a.outCycletime > 0 {
      CycleBackIff(a.outCycletime, a.outNext);
    }
  }

  function OddEven(x: byte): byte { if x != 0x80 && x != 0x81 then 0 else x }

  function PushedRc(rc: int): int { if rc < E_NOTFOUND then E_FOUND else rc }

  predicate Pushable(rc: int) { PushedRc(rc) == E_FOUND || PushedRc(rc) == E_UNHANDLED }

  /** The first 20 bytes: header and identifiers. */
  function EncodeIds(er: Request, size: nat): (s: seq<byte>)
    requires Pushable(er.rc)
    ensures |s| == 20
  {
    var lo: byte, hi: byte, rc: byte := size % 256, size / 256 % 256, PushedRc(er.rc);
    [0x3f, lo, hi, rc, 0, 0, 0, 0] + Be2(er.srvid) + Be2(er.caid) + Be4(er.prid)
    + [0, 0, CycleByte(er.cycletime, er.nextCw), OddEven(er.ecm0)]
  }

  /** The first 57 bytes: then digest, hash, control word and node count. */
  function EncodeHead(er: Request): (s: seq<byte>)
    requires Pushable(er.rc)
    ensures |s| == 57
  {
    var count: byte := (|er.lastNodes| + 1) % 256;
    EncodeIds(er, 46 + 8 * |er.lastNodes|) + er.ecmd5 + Be4(HashSwap(er.cspHash)) + er.cw + [count]
  }

  /** The whole push message of node `own`. */
  function Encode(er: Request, own: NodeId): seq<byte>
    requires Pushable(er.rc)
  {
    var lg: byte := if er.localGenerated then 1 else 0xFF;
    EncodeHead(er) + EncodeNodes([own] + er.lastNodes) + [lg]
  }

  /** The bytes that camd35_cacheex_push_in reads. */
  predicate Readable(b: seq<byte>) {
    |b| >= 56 && (SizeField(b) > 36 ==> |b| >= 57 && |b| >= 57 + 8 * (b[56] as int) + 1)
  }

  function SizeField(b: seq<byte>): nat
    requires |b| >= 3
  {
    b[1] as int + 256 * (b[2] as int)
  }

  predicate NewFormat(b: seq<byte>)
    requires |b| >= 3
  {
    SizeField(b) > 36
  }

  /** camd35_cacheex_push_in up to the limits and filters; None: ignored. */
  function Decode(b: seq<byte>): Option<Request>
    requires Readable(b)
  {
    if b[3] != E_FOUND && b[3] != E_UNHANDLED then None
    else if SizeField(b) < 36 then None
    else
      var cycle := CycleOf(b[18]);
      var newFormat := NewFormat(b);
      var n := if newFormat then b[56] as nat else 0;
      Some(Request(b[3], FromBe(b[8..10]), FromBe(b[10..12]), FromBe(b[12..16]), cycle.0, cycle.1, OddEven(b[19]),
                   b[20..36], HashSwap(FromBe(b[36..40])), b[40..56],
                   if newFormat then DecodeNodes(b[57..57 + 8 * n], n) else [],
                   newFormat && b[57 + 8 * n] == 1))
  }

  lemma NodesNeedNewFormat(b: seq<byte>)
    requires Readable(b) && Decode(b).Some? && Decode(b).value.lastNodes != []
    ensures NewFormat(b)
  {
    hide FromBe, HashSwap, CycleOf, OddEven, DecodeNodes;
  }

  /** Where the fields are in the first 57 bytes. */
  lemma HeadFields(er: Request)
    requires Pushable(er.rc)
    ensures
      var h := EncodeHead(er);
      && h[1] == (46 + 8 * |er.lastNodes|) % 256 && h[2] == (46 + 8 * |er.lastNodes|) / 256 % 256
      && h[3] == PushedRc(er.rc) && h[18] == CycleByte(er.cycletime, er.nextCw) && h[19] == OddEven(er.ecm0)
      && h[8..10] == Be2(er.srvid) && h[10..12] == Be2(er.caid) && h[12..16] == Be4(er.prid)
      && h[20..36] == er.ecmd5 && h[36..40] == Be4(HashSwap(er.cspHash)) && h[40..56] == er.cw
      && h[56] == (|er.lastNodes| + 1) % 256
  {
    hide Be2, Be4, HashSwap, CycleByte, OddEven;
  }

  /** The fields of the head inside a longer message. */
  lemma PrefixFields(h: seq<byte>, b: seq<byte>)
    requires |h| == 57 && h <= b
    ensures forall i :: 0 <= i < 57 ==> b[i] == h[i]
    ensures b[8..10] == h[8..10] && b[10..12] == h[10..12] && b[12..16] == h[12..16]
    ensures b[20..36] == h[20..36] && b[36..40] == h[36..40] && b[40..56] == h[40..56]
  {
    assert b[..57] == h;
  }

  /** camd35_cacheex_push_in reads back what camd35_cacheex_push_out wrote: every field, with
      the sender in front of the node list; a cycle time that leaves bit 7 free comes back with
      its half. */
  lemma RoundTrip(er: Request, own: NodeId)
    requires Pushable(er.rc) && |er.lastNodes| < 255
    requires er.srvid < 0x10000 && er.caid < 0x10000 && er.prid < 0x100000000 && er.cspHash < 0x100000000
    ensures Readable(Encode(er, own))
    ensures Decode(Encode(er, own)) == Some(er.(
      rc := PushedRc(er.rc), ecm0 := OddEven(er.ecm0), lastNodes := [own] + er.lastNodes,
      cycletime := CycleOf(CycleByte(er.cycletime, er.nextCw)).0, nextCw := CycleOf(CycleByte(er.cycletime, er.nextCw)).1))
  {
    hide EncodeHead, EncodeNodes, DecodeNodes, FromBe, Be2, Be4, HashSwap, CycleByte, CycleOf;
    var lg: byte := if er.localGenerated then 1 else 0xFF;
    var ns := [own] + er.lastNodes;
    var h, t, b := EncodeHead(er), EncodeNodes(ns), Encode(er, own);
    HeadFields(er);
    PrefixFields(h, b);
    var size := 46 + 8 * |er.lastNodes|;
    assert size < 0x10000 && size % 256 + 256 * (size / 256 % 256) == size;
    FromBe2(er.srvid);
    FromBe2(er.caid);
    FromBe4(er.prid);
    FromBe4(HashSwap(er.cspHash));
    HashSwapTwice(er.cspHash);
    NodesBack(ns);
    assert |ns| == h[56];
  }

  // ----- hop limits -----

  type int8 = x: int | -128 <= x < 128

  /** cacheex.maxhop and cacheex.maxhop_lg of a reader or an account; 0 means not set. */
  datatype Limits = Limits(maxhop: int8, maxhopLg: int8)

  /** The reader's and the account's limits of one connection. */
  datatype Connection = Connection(reader: Option<Limits>, account: Option<Limits>)

  function Maxhop(c: Connection): int8 {
    if c.reader.Some? && c.reader.value.maxhop != 0 then c.reader.value.maxhop
    else if c.account.Some? && c.account.value.maxhop != 0 then c.account.value.maxhop
    else 10
  }

  function ClampLg(lg: int8, maxhop: int8): int8 {
    var capped: int8 := if lg > 10 then 10 else lg;
    if capped < maxhop then maxhop else capped
  }

  function MaxhopLg(c: Connection): int8 {
    if c.reader.Some? && c.reader.value.maxhopLg != 0 then ClampLg(c.reader.value.maxhopLg, Maxhop(c))
    else if c.account.Some? && c.account.value.maxhopLg != 0 then ClampLg(c.account.value.maxhopLg, Maxhop(c))
    else Maxhop(c)
  }

  /** The configured object after cacheex_maxhop_lg wrote its clamped value back. */
  function Clamped(c: Connection): Connection {
    if c.reader.Some? && c.reader.value.maxhopLg != 0 then c.(reader := Some(c.reader.value.(maxhopLg := MaxhopLg(c))))
    else if c.account.Some? && c.account.value.maxhopLg != 0 then c.(account := Some(c.account.value.(maxhopLg := MaxhopLg(c))))
    else c
  }

  /** The limit for locally generated words is never the smaller one, and writing the clamped
      value back changes neither limit: further calls give the same. */
  lemma LgLimit(c: Connection)
    ensures Maxhop(c) <= MaxhopLg(c)
    ensures Maxhop(Clamped(c)) == Maxhop(c)
    ensures MaxhopLg(Clamped(c)) == MaxhopLg(c)
  {
  }

  function Limit(c: Connection, lg: bool): int8 { if lg then MaxhopLg(c) else Maxhop(c) }

  /** camd35_cacheex_push_chk, given the peer id stored for the connection. */
  predicate PushOk(er: Request, c: Connection, peer: Option<NodeId>) {
    && !(|er.lastNodes| >= Maxhop(c) && (!er.localGenerated || |er.lastNodes| >= MaxhopLg(c)))
    && peer.Some? && peer.value !in er.lastNodes
  }

  lemma PushOkIsLimit(er: Request, c: Connection, peer: Option<NodeId>)
    ensures PushOk(er, c, peer) <==> |er.lastNodes| < Limit(c, er.localGenerated) && peer.Some? && peer.value !in er.lastNodes
  {
    LgLimit(c);
  }

  /** The receiver's part after parsing: too many nodes are refused, the first node becomes the
      stored peer id if there is none, and a list without nodes gets the peer. A message in the
      old format has no list to count. */
  function Received(er: Request, newFormat: bool, c: Connection, peer: Option<NodeId>): (Option<Request>, Option<NodeId>) {
    if newFormat && |er.lastNodes| > Limit(c, er.localGenerated) then (None, peer)
    else
      var peer' := if peer.None? && er.lastNodes != [] then Some(er.lastNodes[0]) else peer;
      (Some(if er.lastNodes == [] && peer'.Some? then er.(lastNodes := [peer'.value]) else er), peer')
  }
}
