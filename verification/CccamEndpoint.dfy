/** One end of a CCcam connection (the cryptographic part of struct cc_data in
    module-cccam-data.h): its methods change the two cipher blocks in place, at the start of a
    session, on sending, on receiving and at login on both sides, and are proved against the
    functions of CccamLogin and CccamSession. */
module CccamEndpoint {
  import opened Bytes
  import opened CccamCrypt
  import opened CccamLogin
  import opened CccamSession

  /** cc_xor: buf[8 + i] is set from buf[i] before buf[i] itself is masked. */
  method CcXor(buf: array<byte>)
    requires buf.Length == 16
    modifies buf
    ensures buf[..] == XorSeed(old(buf[..]))
  {
    var i := 0;
    while i < 8
      invariant 0 <= i <= 8
      invariant forall k :: 0 <= k < i ==> buf[8 + k] == (k * (old(buf[k]) as int)) % 256
      invariant forall k :: 0 <= k < i ==> buf[k] == if k < 6 then Xor(old(buf[k]), MAGIC[k]) else old(buf[k])
      invariant forall k :: i <= k < 8 ==> buf[k] == old(buf[k])
    {
      buf[8 + i] := (i * (buf[i] as int)) % 256;
      if i <= 5 {
        buf[i] := Xor(buf[i], MAGIC[i]);
      }
      i := i + 1;
    }
    forall k | 0 <= k < 16
      ensures buf[k] == XorSeed(old(buf[..]))[k]
    {
      assert k >= 8 ==> buf[k] == buf[8 + (k - 8)];
    }
  }

  method ToArray(s: seq<byte>) returns (a: array<byte>)
    ensures fresh(a) && a[..] == s
  {
    a := new byte[|s|](k requires 0 <= k < |s| => s[k]);
  }

  class Endpoint {
    const enc: CryptBlock
    const dec: CryptBlock
    var gFlag: byte

    ghost predicate Valid() {
      && enc.Valid() && dec.Valid()
      && enc != dec && enc.keytable != dec.keytable
    }

    ghost function Enc(): Block
      requires Valid()
      reads enc, enc.keytable
    {
      enc.Value()
    }

    ghost function Dec(): Block
      requires Valid()
      reads dec, dec.keytable
    {
      dec.Value()
    }

    constructor ()
      ensures Valid() && fresh(enc) && fresh(dec) && fresh(enc.keytable) && fresh(dec.keytable)
      ensures gFlag == 0
    {
      enc := new CryptBlock();
      dec := new CryptBlock();
      gFlag := 0;
    }

    /** Runs the block over a value and returns what the buffer holds afterwards. */
    method CryptValue(block: CryptBlock, s: seq<byte>, mode: Mode) returns (out: seq<byte>)
      requires block.Valid()
      modifies block, block.keytable
      ensures out == Crypted(old(block.Value()), s, mode)
      ensures block.Value() == After(old(block.Value()), PlainOf(old(block.Value()), s, mode))
    {
      hide *;
      var a := ToArray(s);
      block.Crypt(a, 0, |s|, mode);
      assert s[0..|s|] == s;
      out := a[..];
    }

    /** Key agreement on the server: cc_srv_connect. */
    method StartServer(seed: seq<byte>, sha: seq<byte> -> Digest)
      requires Valid() && |seed| == 16
      modifies enc, dec, enc.keytable, dec.keytable
      ensures Enc() == Agree(seed, sha).down && Dec() == Agree(seed, sha).up
    {
      hide After, Plain, Cipher, InitBlock, XorSeed;
      var data := ToArray(seed);
      CcXor(data);
      var buf := sha(data[..]);
      enc.InitCrypt(buf);
      var data' := CryptValue(enc, data[..], DECRYPT);
      dec.InitCrypt(data');
      var hash := CryptValue(dec, buf, DECRYPT);
    }

    /** Key agreement on the client: cc_cli_connect. */
    method StartClient(seed: seq<byte>, sha: seq<byte> -> Digest) returns (hash: seq<byte>)
      requires Valid() && |seed| == 16
      modifies enc, dec, enc.keytable, dec.keytable
      ensures Dec() == Agree(seed, sha).down && Enc() == Agree(seed, sha).up && hash == Agree(seed, sha).proof
    {
      hide After, Plain, Cipher, InitBlock, XorSeed;
      var data := ToArray(seed);
      CcXor(data);
      hash := sha(data[..]);
      dec.InitCrypt(hash);
      var data' := CryptValue(dec, data[..], DECRYPT);
      enc.InitCrypt(data');
      hash := CryptValue(enc, hash, DECRYPT);
    }

    /** cc_cmd_send on an open connection. */
    method CmdSend(buf: seq<byte>, cmd: int) returns (wire: seq<byte>)
      requires Valid()
      modifies enc, enc.keytable
      ensures wire == Cipher(old(Enc()), NetBuf(gFlag, cmd, buf))
      ensures Enc() == After(old(Enc()), NetBuf(gFlag, cmd, buf))
    {
      hide After, Cipher, Plain;
      var netbuf: seq<byte>;
      if cmd == MSG_NO_HEADER {
        netbuf := buf;
      } else {
        var c: byte, hi: byte, lo: byte := cmd % 256, (|buf| / 256) % 256, |buf| % 256;
        netbuf := [gFlag, c, hi, lo] + buf;
      }
      wire := CryptValue(enc, netbuf, ENCRYPT);
    }

    /** cc_msg_recv: `wire` is what the connection delivers before it ends. Where the code would
        write behind the buffer, the method stops and says so. */
    method MsgRecv(buf: array<byte>, wire: seq<byte>, maxlen: int) returns (len: int, rest: seq<byte>, inside: bool)
      requires Valid() && buf.Length >= 4 && buf != dec.keytable && buf != enc.keytable
      modifies this`gFlag, dec, dec.keytable, buf
      ensures
        var r := Receive(old(Dec()), wire, Buffer(buf.Length, maxlen));
        && len == r.len && rest == r.rest && Dec() == r.dec && inside == r.inside
        && |r.msg| <= buf.Length && buf[..|r.msg|] == r.msg
        && gFlag == if r.msg == [] then old(gFlag) else r.msg[0]
    {
      hide After, Cipher, Plain;
      inside := true;
      if maxlen < 4 {
        return -1, wire, true;
      }
      if |wire| < 4 {
        return -1, [], true;
      }
      var head := CryptValue(dec, wire[..4], DECRYPT);
      forall k | 0 <= k < 4 { buf[k] := head[k]; }
      assert buf[..4] == head;
      gFlag := buf[0];
      var size := (buf[2] as int) * 256 + buf[3] as int;
      if size == 0 {
        return 4, wire[4..], true;
      }
      if size > maxlen {
        return 0, wire[4..], true;
      }
      if 4 + size > buf.Length && |wire| > buf.Length {
        return -1, wire[4..], false;
      }
      if |wire| < 4 + size {
        return -1, [], true;
      }
      var body := CryptValue(dec, wire[4..4 + size], DECRYPT);
      forall k | 0 <= k < size { buf[4 + k] := body[k]; }
      assert buf[..4 + size] == head + body by {
        assert buf[..4] == head;
        assert forall k :: 0 <= k < size ==> buf[4 + k] == body[k];
        assert forall k :: 4 <= k < 4 + size ==> buf[k] == buf[4 + (k - 4)];
      }
      len, rest := 4 + size, wire[4 + size..];
    }

    /** The client's three login messages. */
    method LoginClient(hash: seq<byte>, usr: seq<byte>, pwd: seq<byte>)
      returns (proof: seq<byte>, user: seq<byte>, check: seq<byte>)
      requires Valid()
      modifies enc, enc.keytable
      ensures ClientHello(old(Enc()), hash, usr, pwd) == Hello(proof, user, check, Enc())
    {
      hide After, Cipher, Plain;
      proof := CmdSend(hash, MSG_NO_HEADER);
      user := CmdSend(UserField(usr), MSG_NO_HEADER);
      var scratch := CryptValue(enc, Trunc(pwd, 64), ENCRYPT);
      check := CmdSend(MAGIC, MSG_NO_HEADER);
    }

    /** The loop of cc_srv_connect over the accounts. */
    method FindAccount(usr: seq<byte>, check: seq<byte>, accounts: seq<Account>) returns (found: int)
      requires Valid()
      modifies dec, dec.keytable
      ensures
        var s := TryAccounts(old(Dec()), old(Dec()), usr, check, accounts, 0);
        found == s.found && Dec() == s.dec
    {
      hide After, Cipher, Plain, Trunc;
      var saved := new CryptBlock();
      saved.CopyFrom(dec);
      ghost var save := saved.Value();
      var buf := check;
      var k := 0;
      while k < |accounts|
        invariant 0 <= k <= |accounts|
        invariant saved.Value() == save && saved.Valid()
        invariant TryAccounts(save, save, usr, check, accounts, 0) == TryAccounts(save, Dec(), usr, buf, accounts, k)
      {
        if NameMatches(usr, accounts[k]) {
          dec.CopyFrom(saved);
          var scratch := CryptValue(dec, Trunc(accounts[k].pwd, 64), ENCRYPT);
          buf := CryptValue(dec, buf, DECRYPT);
          if buf == MAGIC {
            return k;
          }
        }
        k := k + 1;
      }
      return -1;
    }

    /** The server's side of the login; `code` is 0 or the error that cc_srv_connect returns. */
    method LoginServer(proof: Incoming, user: Incoming, check: Incoming, accounts: seq<Account>)
      returns (code: int, account: nat, ack: seq<byte>)
      requires Valid()
      modifies enc, dec, enc.keytable, dec.keytable
      ensures
        match ServerLogin(old(Enc()), old(Dec()), proof, user, check, accounts)
        case Accepted(a, e, d, k) => code == 0 && account == a && Enc() == e && Dec() == d && ack == k
        case Refused(c) => code == c
    {
      hide After, Cipher, Plain, TryAccounts, StringOf;
      account, ack := 0, [];
      if proof.Failed? || |proof.bytes| != 20 {
        return -1, 0, [];
      }
      var ignored := CryptValue(dec, proof.bytes, DECRYPT);
      if user.Failed? {
        return -1, 0, [];
      }
      if |user.bytes| != 20 {
        return -2, 0, [];
      }
      var plainUser := CryptValue(dec, user.bytes, DECRYPT);
      var usr := StringOf(plainUser);
      if Illegal(usr) {
        return -3, 0, [];
      }
      if check.Failed? {
        return -1, 0, [];
      }
      if |check.bytes| != 6 {
        return -2, 0, [];
      }
      var found := FindAccount(usr, check.bytes, accounts);
      if found < 0 || accounts[found].admission == Denied {
        return -2, 0, [];
      }
      if accounts[found].admission == Duplicate {
        return -3, 0, [];
      }
      if accounts[found].maxHops < -1 {
        return -3, 0, [];
      }
      code, account := 0, found;
      ack := CryptValue(enc, MAGIC + Zeros(14), ENCRYPT);
    }
  }

  /** Two endpoints that start from one seed and log in are each other's mirror. */
  method Connect(seed: seq<byte>, sha: seq<byte> -> Digest, usr: seq<byte>, pwd: seq<byte>,
                 accounts: seq<Account>, ghost k: nat) returns (client: Endpoint, server: Endpoint, ok: bool)
    requires |seed| == 16 && CString(usr) && !Illegal(usr)
    requires FirstMatch(usr, pwd, accounts, k) && accounts[k].admission == Admitted && accounts[k].maxHops >= -1
    ensures ok && client.Valid() && server.Valid()
    ensures client.Enc() == server.Dec() && client.Dec() == server.Enc()
  {
    hide After, Cipher, Plain, TryAccounts, StringOf, InitBlock, XorSeed, ServerVerdict, ServerLogin, Agree, FirstMatch, Illegal;
    client := new Endpoint();
    server := new Endpoint();
    server.StartServer(seed, sha);
    var hash := client.StartClient(seed, sha);
    var proof, user, check := client.LoginClient(hash, usr, pwd);
    LoginSucceeds(seed, sha, usr, pwd, accounts, k);
    var code, account, ack := server.LoginServer(Arrived(proof), Arrived(user), Arrived(check), accounts);
    var answer := client.CryptValue(client.dec, ack, DECRYPT);
    ok := code == 0 && |answer| == 20 && answer[..5] == MAGIC[..5];
  }
}
