/** The push message and the hop limits as the program runs them (module-camd35-cacheex.c,
    module-cacheex.c): a cleared buffer filled behind a moving offset, a list filled while another
    one moves on, and limits written back to the account or reader. All of it is proved against
    the functions of CachePush. */
module PushMessage {
  import opened Bytes
  import opened Cards
  import opened NodeCodec
  import opened CachePush

  /** A reader's or an account's cacheex settings, shared by its connections. */
  class Settings {
    var maxhop: int8
    var maxhopLg: int8

    constructor (maxhop: int8, maxhopLg: int8)
      ensures this.maxhop == maxhop && this.maxhopLg == maxhopLg
    {
      this.maxhop, this.maxhopLg := maxhop, maxhopLg;
    }

    function Value(): Limits reads this { Limits(maxhop, maxhopLg) }
  }

  function ValueOf(s: Settings?): Option<Limits>
    reads s
  {
    if s == null then None else Some(s.Value())
  }

  // ----- writing -----

  /** The first 20 bytes, partly left as allocated. */
  method PutIds(buf: array<byte>, er: Request, size: nat)
    requires buf.Length >= 20 && Pushable(er.rc) && forall k :: 0 <= k < 20 ==> buf[k] == 0
    modifies buf
    ensures buf[..20] == EncodeIds(er, size)
  {
    hide Be2, Be4;
    var lo: byte, hi: byte, rc: byte := size % 256, size / 256 % 256, if er.rc < E_NOTFOUND then E_FOUND else er.rc;
    var ofs := Append(buf, 0, [0x3f, lo, hi, rc]);
    Skip(buf, 4, 4);
    ofs := Append(buf, 8, Be2(er.srvid));
    ofs := Append(buf, ofs, Be2(er.caid));
    ofs := Append(buf, ofs, Be4(er.prid));
    Skip(buf, 16, 2);
    ghost var ids := buf[..18];
    assert ids == [0x3f, lo, hi, rc] + [0, 0, 0, 0] + Be2(er.srvid) + Be2(er.caid) + Be4(er.prid) + [0, 0];
    PutCycle(buf, er);
    assert buf[..20] == ids + [CycleByte(er.cycletime, er.nextCw), OddEven(er.ecm0)];
  }

  method PutCycle(buf: array<byte>, er: Request)
    requires buf.Length >= 20 && buf[18] == 0
    modifies buf
    ensures buf[..20] == old(buf[..18]) + [CycleByte(er.cycletime, er.nextCw), OddEven(er.ecm0)]
  {
    if er.cycletime != 0 && er.nextCw < 2 {
      buf[18] := er.cycletime;
      if er.nextCw == 1 && buf[18] < 0x80 {
        buf[18] := buf[18] + 0x80;
      }
    }
    buf[19] := if er.ecm0 != 0x80 && er.ecm0 != 0x81 then 0 else er.ecm0;
  }

  lemma HeadIs(er: Request)
    requires Pushable(er.rc)
    ensures
      var count: byte := (|er.lastNodes| + 1) % 256;
      EncodeHead(er) == EncodeIds(er, 46 + 8 * |er.lastNodes|) + er.ecmd5 + Be4(HashSwap(er.cspHash)) + er.cw + [count]
  {
    hide EncodeIds, Be4, HashSwap;
  }

  /** camd35_cacheex_push_out up to the send; None: not a result that is pushed. */
  method PushOut(er: Request, own: NodeId) returns (buf: array?<byte>)
    ensures (buf == null) == !Pushable(er.rc)
    ensures buf != null ==> fresh(buf) && buf[..] == Encode(er, own)
  {
    hide EncodeHead, EncodeNodes, EncodeIds, HashSwap, Be4;
    var rc := if er.rc < E_NOTFOUND then E_FOUND else er.rc;
    if rc != E_FOUND && rc != E_UNHANDLED {
      return null;
    }
    var size := 16 + 4 + 16 + 1 + (|er.lastNodes| + 1) * 8 + 1;
    var b := new byte[size + 20] (_ => 0);
    PutIds(b, er, size);
    var ofs := Append(b, 20, er.ecmd5);
    ofs := Append(b, ofs, Be4(HashSwap(er.cspHash)));
    ofs := Append(b, ofs, er.cw);
    var count: byte := (|er.lastNodes| + 1) % 256;
    ofs := Append(b, ofs, [count]);
    HeadIs(er);
    assert b[..ofs] == EncodeHead(er);
    ofs := Append(b, ofs, own);
    EncodeNodesSnoc([], own);
    assert [] + [own] == [own] && [] + own == own;
    ofs := PutNodes(b, ofs, er, own);
    var lg: byte := if er.localGenerated then 1 else 0xFF;
    ofs := Append(b, ofs, [lg]);
    assert b[..ofs] == b[..];
    buf := b;
  }

  method PutNodes(buf: array<byte>, ofs0: nat, er: Request, own: NodeId) returns (ofs: nat)
    requires Pushable(er.rc) && ofs0 == 65 && buf.Length == 66 + 8 * |er.lastNodes|
    requires buf[..ofs0] == EncodeHead(er) + EncodeNodes([own])
    modifies buf
    ensures ofs + 1 == buf.Length && buf[..ofs] == EncodeHead(er) + EncodeNodes([own] + er.lastNodes)
  {
    hide EncodeHead, EncodeNodes;
    ofs := ofs0;
    assert [own] + er.lastNodes[..0] == [own];
    var i := 0;
    while i < |er.lastNodes|
      invariant 0 <= i <= |er.lastNodes| && ofs == 65 + 8 * i
      invariant buf[..ofs] == EncodeHead(er) + EncodeNodes([own] + er.lastNodes[..i])
    {
      ghost var sofar := [own] + er.lastNodes[..i];
      ofs := Append(buf, ofs, er.lastNodes[i]);
      EncodeNodesSnoc(sofar, er.lastNodes[i]);
      assert sofar + [er.lastNodes[i]] == [own] + er.lastNodes[..i + 1];
      i := i + 1;
    }
    assert er.lastNodes[..|er.lastNodes|] == er.lastNodes;
  }

  // ----- connections -----

  class Client {
    const reader: Settings?
    const account: Settings?
    var skey: NodeId
    var skeyValid: bool

    constructor (reader: Settings?, account: Settings?)
      ensures this.reader == reader && this.account == account && Peer() == None
    {
      this.reader, this.account := reader, account;
      skey, skeyValid := [0, 0, 0, 0, 0, 0, 0, 0], false;
    }

    function Peer(): Option<NodeId> reads this { if skeyValid then Some(skey) else None }

    /** The connection with the limits as they are now. */
    function Conn(): Connection
      reads reader, account
    {
      Connection(ValueOf(reader), ValueOf(account))
    }

    /** A reader and an account are different objects. */
    predicate Valid() { reader != null ==> reader != account }

    /** cacheex_maxhop. */
    method GetMaxhop() returns (maxhop: int8)
      ensures maxhop == Maxhop(Conn())
    {
      maxhop := 10;
      if reader != null && reader.maxhop != 0 {
        maxhop := reader.maxhop;
      } else if account != null && account.maxhop != 0 {
        maxhop := account.maxhop;
      }
    }

    /** The part of cacheex_maxhop_lg that is the same for a reader and an account. */
    method ClampSettings(s: Settings, maxhop: int8) returns (maxhopLg: int8)
      modifies s
      ensures maxhopLg == ClampLg(old(s.maxhopLg), maxhop)
      ensures s.Value() == old(s.Value()).(maxhopLg := maxhopLg)
    {
      if s.maxhopLg > 10 {
        s.maxhopLg := 10;
      }
      if s.maxhopLg < maxhop {
        maxhopLg := maxhop;
      } else {
        maxhopLg := s.maxhopLg;
      }
      s.maxhopLg := maxhopLg;
    }

    /** cacheex_maxhop_lg: the limit used is written back. */
    method GetMaxhopLg() returns (maxhopLg: int8)
      requires Valid()
      modifies reader, account
      ensures maxhopLg == MaxhopLg(old(Conn())) && Conn() == Clamped(old(Conn()))
    {
      var maxhop := GetMaxhop();
      maxhopLg := maxhop;
      if reader != null && reader.maxhopLg != 0 {
        maxhopLg := ClampSettings(reader, maxhop);
      } else if account != null && account.maxhopLg != 0 {
        maxhopLg := ClampSettings(account, maxhop);
      }
    }

    /** camd35_cacheex_push_chk up to the list of connections already served. */
    method PushCheck(er: Request) returns (ok: bool)
      requires Valid()
      modifies reader, account
      ensures ok == PushOk(er, old(Conn()), Peer())
      ensures Conn() == old(Conn()) || Conn() == Clamped(old(Conn()))
    {
      hide Maxhop, MaxhopLg, Clamped;
      var maxhop := GetMaxhop();
      if |er.lastNodes| >= maxhop {
        var over := !er.localGenerated;
        if !over {
          var maxhopLg := GetMaxhopLg();
          over := |er.lastNodes| >= maxhopLg;
        }
        if over {
          return false;
        }
      }
      if !skeyValid {
        return false;
      }
      var i := 0;
      while i < |er.lastNodes|
        invariant 0 <= i <= |er.lastNodes| && skey !in er.lastNodes[..i]
        invariant Conn() == old(Conn()) || Conn() == Clamped(old(Conn()))
      {
        if er.lastNodes[i] == skey {
          return false;
        }
        i := i + 1;
      }
      assert er.lastNodes[..|er.lastNodes|] == er.lastNodes;
      return true;
    }

    /** The keep-alive messages of both sides carry the sender's identifier. */
    method ReceiveRemoteId(buf: seq<byte>)
      requires |buf| >= 28
      modifies this
      ensures Peer() == Some(buf[20..28])
    {
      skey, skeyValid := buf[20..28], true;
    }

    /** camd35_cacheex_push_in without the filters; None: ignored. */
    method PushIn(buf: seq<byte>) returns (er: Option<Request>)
      requires Valid() && Readable(buf)
      modifies this, reader, account
      ensures
        var m := Decode(buf);
        if m.None? then er == None && Peer() == old(Peer())
        else (er, Peer()) == Received(m.value, NewFormat(buf), old(Conn()), old(Peer()))
      ensures Conn() == old(Conn()) || Conn() == Clamped(old(Conn()))
    {
      hide DecodeNodes, FromBe, HashSwap, CycleOf, OddEven, Maxhop, MaxhopLg, Clamped;
      var rc := buf[3];
      if rc != E_FOUND && rc != E_UNHANDLED {
        return None;
      }
      var size := SizeField(buf);
      if size < 36 {
        return None;
      }
      var nodes, lg := [], false;
      if size > 36 {
        var count := buf[56] as nat;
        nodes := ReadNodes(buf, 57, count);
        lg := buf[57 + 8 * count] == 1;
      }
      var m := Request(rc, FromBe(buf[8..10]), FromBe(buf[10..12]), FromBe(buf[12..16]), CycleOf(buf[18]).0, CycleOf(buf[18]).1,
                       OddEven(buf[19]), buf[20..36], HashSwap(FromBe(buf[36..40])), buf[40..56], nodes, lg);
      assert Decode(buf) == Some(m);
      if size > 36 {
        var limit;
        if lg {
          limit := GetMaxhopLg();
        } else {
          limit := GetMaxhop();
        }
        if |nodes| > limit {
          return None;
        }
      }
      if nodes != [] && !skeyValid {
        skey, skeyValid := nodes[0], true;
      }
      if nodes == [] && skeyValid {
        m := m.(lastNodes := [skey]);
      }
      er := Some(m);
    }
  }
}
