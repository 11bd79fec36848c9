/** CCcam message framing (module-cccam.c) over the stream cipher: a client and a server that
    logged in from one seed stay in lockstep for every run. */
module CccamSession {
  import opened Bytes
  import opened CccamCrypt
  import opened CccamLogin

  /** Command value that sends the buffer without a header. */
  const MSG_NO_HEADER: int := 0xFFFF

  // ----- framing -----

  datatype Msg = Msg(flag: byte, cmd: byte, payload: seq<byte>)

  function Header(flag: byte, cmd: byte, len: nat): seq<byte> {
    [flag, cmd, (len / 256) % 256, len % 256]
  }

  function Frame(m: Msg): seq<byte> {
    Header(m.flag, m.cmd, |m.payload|) + m.payload
  }

  /** Where a message is received: the length of the buffer, and the limit for the payload that
      the caller passes to cc_msg_recv. */
  datatype Buffer = Buffer(size: nat, maxlen: int)

  /** The buffer holds a header, and the limit lets one be read. */
  predicate Usable(into: Buffer) { into.size >= 4 && into.maxlen >= 4 }

  /** The payload fits the limit, the two length bytes of the header, and what the buffer has
      behind the header. */
  predicate Fits(m: Msg, into: Buffer) {
    |m.payload| <= into.maxlen && |m.payload| < 0x10000 && 4 + |m.payload| <= into.size
  }

  /** What cc_cmd_send encrypts. */
  function NetBuf(flag: byte, cmd: int, buf: seq<byte>): seq<byte> {
    if cmd == MSG_NO_HEADER then buf else Frame(Msg(flag, cmd % 256, buf))
  }

  /** What cc_msg_recv returns and leaves behind: its result, the bytes it decrypted, the
      decryption block and the bytes still unread. The code compares the payload with the limit
      only; `inside` says whether it stayed in the buffer, and nothing else counts if not. */
  datatype Receipt = Receipt(len: int, msg: seq<byte>, dec: Block, rest: seq<byte>, inside: bool)

  function Receive(dec: Block, wire: seq<byte>, into: Buffer): Receipt
    requires into.size >= 4
  {
    if into.maxlen < 4 then Receipt(-1, [], dec, wire, true)
    else if |wire| < 4 then Receipt(-1, [], dec, [], true)
    else
      var head := Plain(dec, wire[..4]);
      var dec1 := After(dec, head);
      var size := (head[2] as int) * 256 + head[3] as int;
      if size == 0 then Receipt(4, head, dec1, wire[4..], true)
      else if size > into.maxlen then Receipt(0, head, dec1, wire[4..], true)
      else if 4 + size > into.size && |wire| > into.size then Receipt(-1, head, dec1, wire[4..], false)
      else if |wire| < 4 + size then Receipt(-1, head, dec1, [], true)
      else
        var body := Plain(dec1, wire[4..4 + size]);
        Receipt(4 + size, head + body, After(dec1, body), wire[4 + size..], true)
  }

  /** Encrypting a frame at once and decrypting its header and payload separately fit
      together whenever the payload is no longer than the receiver accepts. */
  lemma {:induction false} ReceiveOfSend(b: Block, m: Msg, more: seq<byte>, into: Buffer)
    requires Usable(into) && Fits(m, into)
    ensures Receive(b, Cipher(b, Frame(m)) + more, into)
         == Receipt(|Frame(m)|, Frame(m), After(b, Frame(m)), more, true)
  {
    hide After, Cipher, Plain;
    var head := Header(m.flag, m.cmd, |m.payload|);
    var b1 := After(b, head);
    Concat(b, head, m.payload);
    PlainOfCipher(b, head);
    PlainOfCipher(b1, m.payload);
    ReceiveParts(b, Cipher(b, head), head, Cipher(b1, m.payload), m.payload, more, into);
  }

  lemma ReceiveParts(dec: Block, c1: seq<byte>, head: seq<byte>, c2: seq<byte>, body: seq<byte>, more: seq<byte>, into: Buffer)
    requires |c1| == |head| == 4 && |c2| == |body| <= into.maxlen && 4 + |body| <= into.size && Usable(into)
    requires (head[2] as int) * 256 + head[3] as int == |c2|
    requires Plain(dec, c1) == head && Plain(After(dec, head), c2) == body
    ensures Receive(dec, c1 + c2 + more, into)
         == Receipt(4 + |body|, head + body, After(After(dec, head), body), more, true)
  {
    ThreeParts(c1, c2, more);
    assert body == [] ==> head + body == head;
  }

  lemma ThreeParts(x: seq<byte>, y: seq<byte>, z: seq<byte>)
    requires |x| == 4
    ensures (x + y + z)[..4] == x
    ensures (x + y + z)[4..4 + |y|] == y
    ensures (x + y + z)[4 + |y|..] == z
  {
  }

  lemma HeaderOfSend(b: Block, m: Msg, more: seq<byte>)
    ensures
      var head := Header(m.flag, m.cmd, |m.payload|);
      var wire := Cipher(b, Frame(m)) + more;
      && wire == Cipher(b, head) + Cipher(After(b, head), m.payload) + more
      && |wire| == 4 + |m.payload| + |more|
      && Plain(b, wire[..4]) == head
      && After(b, Frame(m)) == After(After(b, head), m.payload)
  {
    var head := Header(m.flag, m.cmd, |m.payload|);
    Concat(b, head, m.payload);
    PlainOfCipher(b, head);
    var wire := Cipher(b, Frame(m)) + more;
    assert wire[..4] == Cipher(b, head);
  }

  /** Where things stand in a frame: flag, command, length with the high byte first, payload. Under
      the command 0xFFFF the buffer is sent as it is. */
  lemma FrameBytes(m: Msg, cmd: int)
    ensures |Frame(m)| == 4 + |m.payload|
    ensures Frame(m)[0] == m.flag && Frame(m)[1] == m.cmd && Frame(m)[4..] == m.payload
    ensures 256 * (Frame(m)[2] as int) + Frame(m)[3] as int == |m.payload| % 0x10000
    ensures NetBuf(m.flag, cmd, m.payload) == if cmd == 65535 then m.payload else Frame(m.(cmd := cmd % 256))
  {
  }

  /** What a receive answers, told from the bytes that came: a limit below four or too few bytes
      are errors, a payload over the limit is left unread, and otherwise header and payload are
      taken. */
  lemma ReceiveAnswers(dec: Block, wire: seq<byte>, into: Buffer)
    requires into.size >= 4
    ensures
      var r := Receive(dec, wire, into);
      && (into.maxlen <= 3 || |wire| <= 3 ==> r.len == -1 && r.inside && r.msg == [] && r.dec == dec)
      && (into.maxlen <= 3 ==> r.rest == wire)
      && (into.maxlen >= 4 && |wire| >= 4 ==>
            var head := Plain(dec, wire[..4]);
            var size := 256 * (head[2] as int) + head[3] as int;
            && (size == 0 ==> r == Receipt(4, head, After(dec, head), wire[4..], true))
            && (size >= into.maxlen + 1 ==> r == Receipt(0, head, After(dec, head), wire[4..], true))
            && (1 <= size <= into.maxlen && size + 4 <= into.size && |wire| <= size + 3 ==> r.len == -1 && r.inside && r.rest == [])
            && (1 <= size <= into.maxlen && size + 4 <= into.size && |wire| >= size + 4 ==>
                  r.len == 4 + size && r.inside && r.msg == Plain(dec, wire[..4 + size]) && r.dec == After(dec, r.msg) && r.rest == wire[4 + size..])
            && (r.inside <==> !(1 <= size <= into.maxlen) || size + 4 <= into.size || |wire| <= into.size)
            && (!r.inside ==> r == Receipt(-1, head, After(dec, head), wire[4..], false)))
  {
    hide After, Plain, Cipher;
    if into.maxlen >= 4 && |wire| >= 4 {
      var head := Plain(dec, wire[..4]);
      var size := 256 * (head[2] as int) + head[3] as int;
      if 1 <= size <= into.maxlen && size + 4 <= into.size && |wire| >= size + 4 {
        ConcatPlain(dec, wire[..4], wire[4..4 + size]);
        assert wire[..4] + wire[4..4 + size] == wire[..4 + size];
        Concat(dec, head, Plain(After(dec, head), wire[4..4 + size]));
      }
    }
  }

  /** A message arrives as it was sent if and only if it fits and the limit lets a header be read. */
  lemma ArrivesIffFits(b: Block, m: Msg, more: seq<byte>, into: Buffer)
    requires into.size >= 4
    ensures
      var r := Receive(b, Cipher(b, Frame(m)) + more, into);
      (r.inside && r.len == |Frame(m)| && r.msg == Frame(m)) <==> Fits(m, into) && into.maxlen >= 4
  {
    hide After, Cipher, Plain;
    if into.maxlen >= 4 {
      if Fits(m, into) {
        ReceiveOfSend(b, m, more, into);
      } else {
        HeaderOfSend(b, m, more);
        var n := |m.payload|;
        var size := (n / 256) % 256 * 256 + n % 256;
        assert n >= 0x10000 ==> size < n;
      }
    }
  }

  /** The largest payload that the limit and the length bytes let through. */
  function Largest(into: Buffer): int { if into.maxlen < 0xFFFF then into.maxlen else 0xFFFF }

  /** Every receive stays in its buffer exactly if the buffer has four bytes more than the largest
      payload. */
  lemma StaysInsideIff(into: Buffer)
    requires Usable(into)
    ensures (forall dec, wire :: Receive(dec, wire, into).inside) <==> 4 + Largest(into) <= into.size
  {
    hide After, Cipher, Plain;
    if into.size < 4 + Largest(into) {
      var m := Msg(0, 0, Zeros(Largest(into)));
      LeavesBuffer(InitBlock([0]), m, [], into);
    }
  }

  /** A message that the limit lets through but the buffer does not hold. */
  lemma LeavesBuffer(b: Block, m: Msg, more: seq<byte>, into: Buffer)
    requires Usable(into) && |m.payload| <= Largest(into) && 4 + |m.payload| > into.size
    ensures !Receive(b, Cipher(b, Frame(m)) + more, into).inside
  {
    hide After, Cipher, Plain;
    HeaderOfSend(b, m, more);
  }

  /** The server's first receive after the login has a buffer of 1024 bytes and the limit 1023:
      it leaves the buffer exactly for payloads of 1021 to 1023 bytes. */
  lemma ServerDataLeavesIff(b: Block, m: Msg, more: seq<byte>)
    requires |m.payload| < 0x10000
    ensures !Receive(b, Cipher(b, Frame(m)) + more, Buffer(0x400, 0x3FF)).inside <==> 1021 <= |m.payload| <= 1023
  {
    hide After, Cipher, Plain;
    HeaderOfSend(b, m, more);
  }

  // ----- whole sessions -----

  datatype Side = CLIENT | SERVER

  /** One direction of the connection: the sender's and the receiver's block, the bytes in
      flight, everything sent and everything the receiver was given so far. */
  datatype Channel = Channel(enc: Block, dec: Block, wire: seq<byte>, sent: seq<Msg>, got: seq<Receipt>)

  /** Both directions and each side's g_flag. */
  datatype Session = Session(up: Channel, down: Channel, clientFlag: byte, serverFlag: byte)

  datatype Action =
    | SetFlag(side: Side, flag: byte)
    | Send(side: Side, cmd: byte, payload: seq<byte>)
    | Recv(side: Side)

  function ChannelSend(c: Channel, m: Msg): Channel {
    c.(enc := After(c.enc, Frame(m)), wire := c.wire + Cipher(c.enc, Frame(m)), sent := c.sent + [m])
  }

  /** cc_msg_recv blocks while nothing is in flight. */
  function ChannelRecv(c: Channel, into: Buffer): Channel
    requires into.size >= 4
  {
    if c.wire == [] then c
    else
      var r := Receive(c.dec, c.wire, into);
      c.(dec := r.dec, wire := r.rest, got := c.got + [r])
  }

  function Step(s: Session, a: Action, into: Buffer): Session
    requires into.size >= 4
  {
    match a
    case SetFlag(CLIENT, f) => s.(clientFlag := f)
    case SetFlag(SERVER, f) => s.(serverFlag := f)
    case Send(CLIENT, cmd, p) => s.(up := ChannelSend(s.up, Msg(s.clientFlag, cmd, p)))
    case Send(SERVER, cmd, p) => s.(down := ChannelSend(s.down, Msg(s.serverFlag, cmd, p)))
    case Recv(SERVER) =>
      var up := ChannelRecv(s.up, into);
      s.(up := up, serverFlag := FlagAfter(s.up, up, s.serverFlag))
    case Recv(CLIENT) =>
      var down := ChannelRecv(s.down, into);
      s.(down := down, clientFlag := FlagAfter(s.down, down, s.clientFlag))
  }

  /** A received header overwrites g_flag. */
  function FlagAfter(before: Channel, after: Channel, flag: byte): byte {
    if |after.got| > |before.got| && after.got[|before.got|].msg != [] then after.got[|before.got|].msg[0] else flag
  }

  function Run(s: Session, actions: seq<Action>, into: Buffer): Session
    requires into.size >= 4
    decreases |actions|
  {
    if actions == [] then s else Run(Step(s, actions[0], into), actions[1..], into)
  }

  function Frames(ms: seq<Msg>): seq<byte>
    decreases |ms|
  {
    if ms == [] then [] else Frame(ms[0]) + Frames(ms[1..])
  }

  /** The lockstep invariant of one direction: what was received is what was sent, in order,
      and the bytes in flight are exactly the encryption of the messages still to come, in
      the receiver's own block. */
  ghost predicate Lockstep(c: Channel, into: Buffer) {
    && |c.got| <= |c.sent|
    && (forall i :: 0 <= i < |c.sent| ==> Fits(c.sent[i], into))
    && (forall i :: 0 <= i < |c.got| ==> c.got[i].inside && c.got[i].len == |Frame(c.sent[i])| && c.got[i].msg == Frame(c.sent[i]))
    && c.wire == Cipher(c.dec, Frames(c.sent[|c.got|..]))
    && c.enc == After(c.dec, Frames(c.sent[|c.got|..]))
  }

  lemma {:induction false} FramesSnoc(ms: seq<Msg>, m: Msg)
    ensures Frames(ms + [m]) == Frames(ms) + Frame(m)
    decreases |ms|
  {
    if ms == [] {
      assert ms + [m] == [m];
      assert Frames([m]) == Frame(m) + Frames([]);
    } else {
      assert (ms + [m])[1..] == ms[1..] + [m];
      FramesSnoc(ms[1..], m);
    }
  }

  lemma SendKeepsLockstep(c: Channel, m: Msg, into: Buffer)
    requires Lockstep(c, into) && Fits(m, into)
    ensures Lockstep(ChannelSend(c, m), into)
  {
    hide After, Cipher, Plain, Frame;
    var pending := c.sent[|c.got|..];
    assert (c.sent + [m])[|c.got|..] == pending + [m];
    FramesSnoc(pending, m);
    Concat(c.dec, Frames(pending), Frame(m));
  }

  lemma RecvKeepsLockstep(c: Channel, into: Buffer)
    requires Lockstep(c, into) && Usable(into)
    ensures Lockstep(ChannelRecv(c, into), into)
    ensures c.wire != [] ==> |c.got| < |c.sent| && |ChannelRecv(c, into).got| == |c.got| + 1
  {
    hide After, Cipher, Plain, Receive, Frame;
    if c.wire != [] {
      var pending := c.sent[|c.got|..];
      var m := pending[0];
      assert Fits(c.sent[|c.got|], into);
      var later := Frames(pending[1..]);
      Concat(c.dec, Frame(m), later);
      ReceiveOfSend(c.dec, m, Cipher(After(c.dec, Frame(m)), later), into);
      assert pending[1..] == c.sent[|c.got| + 1..];
    }
  }

  /** A receive leaves the flag of the message as the receiver's own. */
  lemma RecvTakesFlag(c: Channel, into: Buffer, flag: byte)
    requires Lockstep(c, into) && Usable(into)
    ensures FlagAfter(c, ChannelRecv(c, into), flag) == if c.wire == [] then flag else c.sent[|c.got|].flag
  {
    hide After, Cipher, Plain, Receive;
    if c.wire != [] {
      RecvKeepsLockstep(c, into);
      var d := ChannelRecv(c, into);
      assert d.got[|c.got|].msg == Frame(c.sent[|c.got|]);
    }
  }

  /** So an answer goes out under the flag of the request it follows, on both sides. */
  lemma AnswersUnderFlag(s: Session, into: Buffer, cmd: byte, payload: seq<byte>)
    requires SessionLockstep(s, into) && Usable(into)
    ensures
      var t := Step(Step(s, Recv(SERVER), into), Send(SERVER, cmd, payload), into);
      s.up.wire != [] ==> |t.down.sent| == |s.down.sent| + 1 && t.down.sent[|s.down.sent|] == Msg(s.up.sent[|s.up.got|].flag, cmd, payload)
    ensures
      var t := Step(Step(s, Recv(CLIENT), into), Send(CLIENT, cmd, payload), into);
      s.down.wire != [] ==> |t.up.sent| == |s.up.sent| + 1 && t.up.sent[|s.up.sent|] == Msg(s.down.sent[|s.down.got|].flag, cmd, payload)
  {
    hide After, Cipher, Plain, Receive, FlagAfter, ChannelRecv, Lockstep;
    RecvTakesFlag(s.up, into, s.serverFlag);
    RecvTakesFlag(s.down, into, s.clientFlag);
  }

  ghost predicate SessionLockstep(s: Session, into: Buffer) {
    Lockstep(s.up, into) && Lockstep(s.down, into)
  }

  /** Every run: whatever the two sides send and however their sends and receives interleave,
      each receive returns exactly the next message sent by the other side. */
  lemma {:induction false} RunKeepsLockstep(s: Session, actions: seq<Action>, into: Buffer)
    requires SessionLockstep(s, into) && Usable(into)
    requires AllFit(actions, into)
    ensures SessionLockstep(Run(s, actions, into), into)
    decreases |actions|
  {
    if actions != [] {
      match actions[0] {
        case Send(CLIENT, cmd, p) => SendKeepsLockstep(s.up, Msg(s.clientFlag, cmd, p), into);
        case Send(SERVER, cmd, p) => SendKeepsLockstep(s.down, Msg(s.serverFlag, cmd, p), into);
        case Recv(SERVER) => RecvKeepsLockstep(s.up, into);
        case Recv(CLIENT) => RecvKeepsLockstep(s.down, into);
        case SetFlag(_, _) =>
      }
      RunKeepsLockstep(Step(s, actions[0], into), actions[1..], into);
    }
  }

  /** When nothing is in flight the blocks are pairwise equal. */
  lemma QuietMeansEqual(c: Channel, into: Buffer)
    requires Lockstep(c, into)
    ensures c.wire == [] <==> |c.got| == |c.sent|
    ensures c.wire == [] ==> c.enc == c.dec
  {
    if |c.got| < |c.sent| {
      var pending := c.sent[|c.got|..];
      assert |Frames(pending)| >= |Frame(pending[0])|;
    }
  }

  /** The session the login leaves behind. */
  function Established(clientEnc: Block, clientDec: Block, serverEnc: Block, serverDec: Block): Session {
    Session(Channel(clientEnc, serverDec, [], [], []), Channel(serverEnc, clientDec, [], [], []), 0, 0)
  }

  ghost predicate AllFit(actions: seq<Action>, into: Buffer) {
    forall i :: 0 <= i < |actions| && actions[i].Send? ==> Fits(Msg(0, actions[i].cmd, actions[i].payload), into)
  }

  /** Login then lockstep: from one seed, with the client's password in the first account of
      its name, the login succeeds and every later run delivers exactly what was sent. */
  lemma LoginThenLockstep(seed: seq<byte>, sha: seq<byte> -> Digest, usr: seq<byte>, pwd: seq<byte>,
                          accounts: seq<Account>, k: nat, actions: seq<Action>, into: Buffer)
    requires |seed| == 16 && CString(usr) && !Illegal(usr)
    requires FirstMatch(usr, pwd, accounts, k) && accounts[k].admission == Admitted && accounts[k].maxHops >= -1
    requires Usable(into) && AllFit(actions, into)
    ensures
      var a := Agree(seed, sha);
      var h := ClientHello(a.up, a.proof, usr, pwd);
      var o := ServerLogin(a.down, a.up, Arrived(h.proof), Arrived(h.user), Arrived(h.check), accounts);
      && o.Accepted? && ClientAccepts(a.down, o.ack)
      && SessionLockstep(Run(Established(h.enc, After(a.down, Plain(a.down, o.ack)), o.enc, o.dec), actions, into), into)
  {
    LoginSucceeds(seed, sha, usr, pwd, accounts, k);
    var a := Agree(seed, sha);
    var h := ClientHello(a.up, a.proof, usr, pwd);
    var o := ServerLogin(a.down, a.up, Arrived(h.proof), Arrived(h.user), Arrived(h.check), accounts);
    FreshLockstep(h.enc, o.enc, actions, into);
  }

  lemma {:induction false} FreshLockstep(up: Block, down: Block, actions: seq<Action>, into: Buffer)
    requires Usable(into) && AllFit(actions, into)
    ensures SessionLockstep(Run(Established(up, down, down, up), actions, into), into)
  {
    var s := Established(up, down, down, up);
    assert s.up.sent[0..] == [] && s.down.sent[0..] == [];
    RunKeepsLockstep(s, actions, into);
  }
}
