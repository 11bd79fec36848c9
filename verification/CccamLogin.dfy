/** CCcam key agreement and login (module-cccam.c) over the stream cipher: two blocks from one
    seed, and a password check whose answers the server decrypts in place. */
module CccamLogin {
  import opened Bytes
  import opened CccamCrypt

  /** "CCcam" with its terminating zero: the string both sides prove they can encrypt. */
  const MAGIC: seq<byte> := [0x43, 0x43, 0x63, 0x61, 0x6D, 0]

  type Digest = d: seq<byte> | |d| == 20 witness seq(20, _ => 0)

  // ----- key agreement -----

  /** cc_xor on the 16 seed bytes. */
  function XorSeed(seed: seq<byte>): (r: seq<byte>)
    requires |seed| == 16
    ensures |r| == 16
  {
    seq(16, (i: nat) requires i < 16 =>
      if i < 6 then Xor(seed[i], MAGIC[i]) else if i < 8 then seed[i] else ((i - 8) * seed[i - 8]) % 256)
  }

  /** One direction's two keys as both sides compute them: the block first keyed with the
      digest has absorbed the seed, the other is keyed with that decrypted seed and has
      absorbed the digest. */
  datatype Agreement = Agreement(down: Block, up: Block, proof: Digest)

  function Agree(seed: seq<byte>, sha: seq<byte> -> Digest): Agreement
    requires |seed| == 16
  {
    var data := XorSeed(seed);
    var hash := sha(data);
    var down0 := InitBlock(hash);
    var data' := Plain(down0, data);
    var up0 := InitBlock(data');
    var hash' := Plain(up0, hash);
    Agreement(After(down0, data'), After(up0, hash'), hash')
  }

  // ----- login -----

  /** A C string: no embedded zero. */
  predicate CString(s: seq<byte>) { 0 !in s }

  function Trunc(s: seq<byte>, n: nat): seq<byte> { if |s| <= n then s else s[..n] }

  /** The string a zero-terminated buffer holds. */
  function StringOf(buf: seq<byte>): seq<byte> {
    if buf == [] || buf[0] == 0 then [] else [buf[0]] + StringOf(buf[1..])
  }

  /** What cs_auth_client and the checks after it say of an account: all is well, it is unknown,
      inactive or disabled, or it is logged in already. */
  datatype Admission = Admitted | Denied | Duplicate

  datatype Account = Account(usr: seq<byte>, pwd: seq<byte>, admission: Admission, maxHops: int)

  /** What cc_recv_to delivers: some bytes, or an error. */
  datatype Incoming = Arrived(bytes: seq<byte>) | Failed

  predicate NameMatches(usr: seq<byte>, a: Account) { Trunc(usr, 20) == Trunc(a.usr, 20) }

  predicate Illegal(usr: seq<byte>) { exists i :: 0 <= i < |usr| && 0 < usr[i] < 0x20 }

  /** One password check: the block and the six bytes it leaves behind. */
  function TrialBlock(saved: Block, pwd: seq<byte>): Block { After(saved, Trunc(pwd, 64)) }

  /** The loop over the accounts. The six received bytes are decrypted in place, so a later
      account sees what the earlier checks made of them. */
  datatype Search = Search(found: int, dec: Block, buf: seq<byte>)

  function TryAccounts(saved: Block, dec: Block, usr: seq<byte>, buf: seq<byte>, accounts: seq<Account>, k: nat): (s: Search)
    requires k <= |accounts|
    ensures s.found == -1 || k <= s.found < |accounts|
    decreases |accounts| - k
  {
    if k == |accounts| then Search(-1, dec, buf)
    else if !NameMatches(usr, accounts[k]) then TryAccounts(saved, dec, usr, buf, accounts, k + 1)
    else
      var d := TrialBlock(saved, accounts[k].pwd);
      var out := Plain(d, buf);
      if out == MAGIC then Search(k, After(d, out), out)
      else TryAccounts(saved, After(d, out), usr, out, accounts, k + 1)
  }

  datatype Outcome = Accepted(account: nat, enc: Block, dec: Block, ack: seq<byte>) | Refused(code: int)

  /** The server's last step, once the name is known and the password check was received. */
  function ServerVerdict(enc: Block, saved: Block, usr: seq<byte>, check: seq<byte>, accounts: seq<Account>): Outcome {
    var s := TryAccounts(saved, saved, usr, check, accounts, 0);
    if s.found < 0 || accounts[s.found].admission == Denied then Refused(-2)
    else if accounts[s.found].admission == Duplicate then Refused(-3)
    else if accounts[s.found].maxHops < -1 then Refused(-3)
    else
      var ack := MAGIC + Zeros(14);
      Accepted(s.found, After(enc, ack), s.dec, Cipher(enc, ack))
  }

  /** The server's answer to the three login messages it received. */
  function ServerLogin(enc: Block, dec: Block, proof: Incoming, user: Incoming, check: Incoming,
                       accounts: seq<Account>): Outcome
  {
    if proof.Failed? || |proof.bytes| != 20 then Refused(-1)
    else
      var dec1 := After(dec, Plain(dec, proof.bytes));
      if user.Failed? then Refused(-1)
      else if |user.bytes| != 20 then Refused(-2)
      else
        var plainUser := Plain(dec1, user.bytes);
        var usr := StringOf(plainUser);
        if Illegal(usr) then Refused(-3)
        else if check.Failed? then Refused(-1)
        else if |check.bytes| != 6 then Refused(-2)
        else ServerVerdict(enc, After(dec1, plainUser), usr, check.bytes, accounts)
  }

  /** The three messages of the client and its encryption block after them. */
  datatype Hello = Hello(proof: seq<byte>, user: seq<byte>, check: seq<byte>, enc: Block)

  function UserField(usr: seq<byte>): (r: seq<byte>)
    ensures |r| == 20
  {
    var u := Trunc(usr, 20);
    u + Zeros(20 - |u|)
  }

  function ClientHello(enc: Block, hash: seq<byte>, usr: seq<byte>, pwd: seq<byte>): Hello {
    var e1 := After(enc, hash);
    var e2 := After(e1, UserField(usr));
    var e3 := After(e2, Trunc(pwd, 64));
    Hello(Cipher(enc, hash), Cipher(e1, UserField(usr)), Cipher(e3, MAGIC), After(e3, MAGIC))
  }

  /** The client takes the login as successful if the first five bytes of the answer match. */
  predicate ClientAccepts(dec: Block, ack: seq<byte>) {
    |ack| == 20 && Plain(dec, ack)[..5] == MAGIC[..5]
  }

  /** A password check passes exactly on the bytes that a client with this password sends. */
  lemma TrialPassesIff(saved: Block, pwd: seq<byte>, buf: seq<byte>)
    ensures Plain(TrialBlock(saved, pwd), buf) == MAGIC <==> buf == Cipher(TrialBlock(saved, pwd), MAGIC)
  {
    PlainOfCipher(TrialBlock(saved, pwd), MAGIC);
    CipherOfPlain(TrialBlock(saved, pwd), buf);
  }

  /** Accounts whose name does not match are passed over. */
  lemma {:induction false} SkipAccounts(saved: Block, dec: Block, usr: seq<byte>, buf: seq<byte>,
                                        accounts: seq<Account>, from: nat, k: nat)
    requires from <= k <= |accounts|
    requires forall i :: from <= i < k ==> !NameMatches(usr, accounts[i])
    ensures TryAccounts(saved, dec, usr, buf, accounts, from) == TryAccounts(saved, dec, usr, buf, accounts, k)
    decreases k - from
  {
    if from < k {
      SkipAccounts(saved, dec, usr, buf, accounts, from + 1, k);
    }
  }

  // ----- several accounts of one name -----

  /** The passwords of the accounts of this name, in order. */
  function Tried(usr: seq<byte>, accounts: seq<Account>, from: nat, to: nat): seq<seq<byte>>
    requires from <= to <= |accounts|
    decreases |accounts| - from
  {
    if from == to then [] else (if NameMatches(usr, accounts[from]) then [accounts[from].pwd] else []) + Tried(usr, accounts, from + 1, to)
  }

  /** What a trial of each password in turn makes of the six bytes. */
  function LeftBy(saved: Block, pwds: seq<seq<byte>>, buf: seq<byte>): seq<byte>
    decreases |pwds|
  {
    if pwds == [] then buf else LeftBy(saved, pwds[1..], Plain(TrialBlock(saved, pwds[0]), buf))
  }

  predicate NonePasses(saved: Block, pwds: seq<seq<byte>>, buf: seq<byte>)
    decreases |pwds|
  {
    pwds == [] || (var out := Plain(TrialBlock(saved, pwds[0]), buf); out != MAGIC && NonePasses(saved, pwds[1..], out))
  }

  /** Which account is found does not depend on the block the loop starts with. */
  lemma {:induction false} FoundIgnoresBlock(saved: Block, d: Block, e: Block, usr: seq<byte>, buf: seq<byte>, accounts: seq<Account>, k: nat)
    requires k <= |accounts|
    ensures TryAccounts(saved, d, usr, buf, accounts, k).found == TryAccounts(saved, e, usr, buf, accounts, k).found
    decreases |accounts| - k
  {
    hide After, Plain, Trunc;
    if k < |accounts| && !NameMatches(usr, accounts[k]) {
      FoundIgnoresBlock(saved, d, e, usr, buf, accounts, k + 1);
    }
  }

  /** The search comes to account k exactly if no earlier account of the name passes, and then
      with what the earlier trials left. */
  lemma {:induction false} SearchComesTo(saved: Block, dec: Block, usr: seq<byte>, buf: seq<byte>, accounts: seq<Account>, from: nat, k: nat)
    requires from <= k <= |accounts|
    ensures
      var pwds := Tried(usr, accounts, from, k);
      var found := TryAccounts(saved, dec, usr, buf, accounts, from).found;
      if NonePasses(saved, pwds, buf) then found == TryAccounts(saved, saved, usr, LeftBy(saved, pwds, buf), accounts, k).found
      else from <= found < k
    decreases |accounts| - from
  {
    hide After, Plain, Trunc;
    if from == k {
      FoundIgnoresBlock(saved, dec, saved, usr, buf, accounts, k);
    } else if NameMatches(usr, accounts[from]) {
      var d := TrialBlock(saved, accounts[from].pwd);
      var out := Plain(d, buf);
      assert Tried(usr, accounts, from, k)[1..] == Tried(usr, accounts, from + 1, k);
      if out != MAGIC {
        SearchComesTo(saved, After(d, out), usr, out, accounts, from + 1, k);
      }
    } else {
      assert Tried(usr, accounts, from, k) == Tried(usr, accounts, from + 1, k);
      SearchComesTo(saved, dec, usr, buf, accounts, from + 1, k);
    }
  }

  /** An account with the client's own password is accepted, however many accounts of the same 20
      characters come before it, if and only if none of these passes and together their trials
      leave the six bytes as they were. */
  lemma AccountAcceptedIff(saved: Block, usr: seq<byte>, pwd: seq<byte>, accounts: seq<Account>, k: nat)
    requires k < |accounts| && NameMatches(usr, accounts[k]) && Trunc(accounts[k].pwd, 64) == Trunc(pwd, 64)
    ensures
      var check := Cipher(TrialBlock(saved, pwd), MAGIC);
      var earlier := Tried(usr, accounts, 0, k);
      TryAccounts(saved, saved, usr, check, accounts, 0).found == k
      <==> NonePasses(saved, earlier, check) && LeftBy(saved, earlier, check) == check
  {
    hide After, Cipher, Plain, Trunc, Tried, NonePasses, LeftBy;
    var check := Cipher(TrialBlock(saved, pwd), MAGIC);
    var earlier := Tried(usr, accounts, 0, k);
    SearchComesTo(saved, saved, usr, check, accounts, 0, k);
    TrialPassesIff(saved, accounts[k].pwd, LeftBy(saved, earlier, check));
  }

  /** Decrypting in a block that differs in its state only gets the first byte wrong: after it the
      states agree again. */
  lemma {:induction false} PlainOtherState(b: Block, state: byte, plain: seq<byte>)
    requires plain != []
    ensures Plain(b.(state := state), Cipher(b, plain)) == plain[0 := Xor(plain[0], Xor(b.state, state))]
  {
    hide Xor, KeyByte;
    var c, key := b.(state := state), KeyByte(Turn(b));
    assert Turn(c) == Turn(b).(state := state);
    assert KeyByte(Turn(c)) == key by { KeyIgnoresState(Turn(b), state); }
    var out := Xor(Xor(plain[0], Mask(b)), Mask(c));
    OutOf(plain[0], key, b.state, state);
    assert out == Xor(plain[0], Xor(b.state, state));
    StateAgain(plain[0], b.state, state);
    assert Absorb(c, out) == Absorb(b, plain[0]);
    var cipher := Cipher(b, plain);
    assert cipher[1..] == Cipher(Absorb(b, plain[0]), plain[1..]);
    PlainOfCipher(Absorb(b, plain[0]), plain[1..]);
    assert Plain(c, cipher) == [out] + plain[1..];
  }

  lemma OutOf(m: byte, key: byte, s: byte, t: byte)
    ensures Xor(Xor(m, Xor(key, s)), Xor(key, t)) == Xor(m, Xor(s, t))
  {
    hide Xor;
    XorAssociates(m, Xor(key, s), Xor(key, t));
    XorCommutes(key, s);
    XorAssociates(s, key, Xor(key, t));
    XorAssociates(key, key, t);
    XorCommutes(key, t);
    XorTwice(t, key);
    XorCommutes(Xor(t, key), key);
  }

  lemma StateAgain(m: byte, s: byte, t: byte)
    ensures Xor(t, Xor(m, Xor(s, t))) == Xor(s, m)
  {
    hide Xor;
    XorAssociates(m, s, t);
    XorCommutes(t, Xor(Xor(m, s), t));
    XorTwice(Xor(m, s), t);
    XorCommutes(m, s);
  }

  /** The part of a password that counts. */
  function Counted(pwd: seq<byte>): (p: seq<byte>)
    ensures |p| <= 64
  {
    Trunc(pwd, 64)
  }

  /** What the password check can tell of two passwords of one length: the exclusive or of their
      characters. */
  predicate Alike(p: seq<byte>, q: seq<byte>) { |Counted(p)| == |Counted(q)| && XorAll(Counted(p)) == XorAll(Counted(q)) }

  /** A trial with another password of the same length: the check comes out right but for the
      first byte, which is off by the two exclusive ors. */
  lemma OtherTrial(saved: Block, p: seq<byte>, q: seq<byte>)
    requires |Counted(p)| == |Counted(q)|
    ensures Plain(TrialBlock(saved, q), Cipher(TrialBlock(saved, p), MAGIC))
         == MAGIC[0 := Xor(MAGIC[0], Xor(XorAll(Counted(p)), XorAll(Counted(q))))]
  {
    hide Xor, Cipher, Plain, Turns, XorAll;
    var x, y := XorAll(Counted(p)), XorAll(Counted(q));
    BlockLaw(saved, Counted(p));
    BlockLaw(saved, Counted(q));
    var b := TrialBlock(saved, p);
    assert TrialBlock(saved, q) == b.(state := Xor(saved.state, y));
    PlainOtherState(b, Xor(saved.state, y), MAGIC);
    XorCommutes(saved.state, x);
    OutOf(x, saved.state, 0, y);
    XorZero(saved.state);
    XorCommutes(0, y);
    XorZero(y);
  }

  /** A password of the right length passes exactly if its characters have the exclusive or of the
      client's: the check knows no more of it. */
  lemma PassesIffAlike(saved: Block, p: seq<byte>, q: seq<byte>)
    requires |Counted(p)| == |Counted(q)|
    ensures Plain(TrialBlock(saved, q), Cipher(TrialBlock(saved, p), MAGIC)) == MAGIC <==> Alike(p, q)
  {
    hide Xor, Cipher, Plain, XorAll, TrialBlock;
    OtherTrial(saved, p, q);
    var d := Xor(XorAll(Counted(p)), XorAll(Counted(q)));
    XorZeroIff(MAGIC[0], d);
    XorSameIff(XorAll(Counted(p)), XorAll(Counted(q)));
  }

  lemma XorZeroIff(m: byte, d: byte)
    ensures Xor(m, d) == m <==> d == 0
  {
    hide Xor;
    XorZero(m);
    XorCommutes(m, d);
    XorTwice(d, m);
    XorSameIff(m, m);
  }

  /** Passwords that are alike leave the same block. */
  lemma AlikeSameBlock(saved: Block, p: seq<byte>, q: seq<byte>)
    requires Alike(p, q)
    ensures TrialBlock(saved, p) == TrialBlock(saved, q)
  {
    hide Xor, XorAll, Turns, After;
    BlockLaw(saved, Counted(p));
    BlockLaw(saved, Counted(q));
  }

  lemma {:induction false} XorAllWithout(s: seq<byte>, i: nat)
    requires i < |s|
    ensures XorAll(s) == Xor(s[i], XorAll(Without(s, i)))
    decreases |s|
  {
    hide Xor;
    var t := s[..i] + s[i + 1..];
    if i == 0 {
      assert t == s[1..];
    } else {
      var r := s[1..];
      assert t[0] == s[0] && t[1..] == r[..i - 1] + r[i..];
      XorAllWithout(r, i - 1);
      var rest := XorAll(t[1..]);
      XorAssociates(s[0], s[i], rest);
      XorCommutes(s[0], s[i]);
      XorAssociates(s[i], s[0], rest);
    }
  }

  function Without(s: seq<byte>, i: nat): (r: seq<byte>)
    requires i < |s|
    ensures |r| == |s| - 1
  {
    s[..i] + s[i + 1..]
  }

  lemma WithoutMultiset(s: seq<byte>, i: nat)
    requires i < |s|
    ensures multiset(Without(s, i)) == multiset(s) - multiset{s[i]}
  {
    assert s == s[..i] + [s[i]] + s[i + 1..];
  }

  lemma {:induction false} XorAllOrder(p: seq<byte>, q: seq<byte>)
    requires multiset(p) == multiset(q)
    ensures XorAll(p) == XorAll(q)
    decreases |p|
  {
    hide Xor, XorAll;
    assert |multiset(p)| == |p| && |multiset(q)| == |q|;
    if p == [] {
      assert q == [];
    } else {
      assert p[0] in multiset(q);
      var i :| 0 <= i < |q| && q[i] == p[0];
      XorAllWithout(p, 0);
      XorAllWithout(q, i);
      WithoutMultiset(p, 0);
      WithoutMultiset(q, i);
      XorAllOrder(Without(p, 0), Without(q, i));
    }
  }

  /** So any rearrangement of a password passes for it. */
  lemma RearrangedIsAlike(p: seq<byte>, q: seq<byte>)
    requires multiset(p) == multiset(q) && |p| <= 64
    ensures Alike(p, q)
  {
    assert |multiset(p)| == |p| && |multiset(q)| == |q|;
    XorAllOrder(p, q);
  }

  /** One earlier account of the name with another password of the same length: the right account
      is accepted if and only if the check happens to read like that one byte off. */
  lemma SecondAccountAcceptedIff(saved: Block, usr: seq<byte>, pwd: seq<byte>, accounts: seq<Account>, k: nat, q: seq<byte>)
    requires k < |accounts| && NameMatches(usr, accounts[k]) && Counted(accounts[k].pwd) == Counted(pwd)
    requires Tried(usr, accounts, 0, k) == [q] && |Counted(q)| == |Counted(pwd)|
    ensures
      var check := Cipher(TrialBlock(saved, pwd), MAGIC);
      TryAccounts(saved, saved, usr, check, accounts, 0).found == k
      <==> !Alike(pwd, q) && check == MAGIC[0 := Xor(MAGIC[0], Xor(XorAll(Counted(pwd)), XorAll(Counted(q))))]
  {
    hide Cipher, Plain, TryAccounts, Xor, XorAll, TrialBlock;
    var check := Cipher(TrialBlock(saved, pwd), MAGIC);
    AccountAcceptedIff(saved, usr, pwd, accounts, k);
    OtherTrial(saved, pwd, q);
    PassesIffAlike(saved, pwd, q);
    var out := Plain(TrialBlock(saved, q), check);
    assert [q][1..] == [] && LeftBy(saved, [], out) == out && NonePasses(saved, [], out);
    assert LeftBy(saved, [q], check) == out;
  }

  /** Another nonzero character. */
  function Other(c: byte, n: nat): byte
    requires n < 2
  {
    if c == 1 + n then 3 else 1 + n
  }

  function Spoilt(pwd: seq<byte>, n: nat): seq<byte>
    requires pwd != [] && n < 2
  {
    pwd[0 := Other(pwd[0], n)]
  }

  /** The two accounts in question: another password of the same name first. */
  function TwoAccounts(usr: seq<byte>, pwd: seq<byte>, n: nat): seq<Account>
    requires pwd != [] && n < 2
  {
    [Account(usr, Spoilt(pwd, n), Admitted, -1), Account(usr, pwd, Admitted, -1)]
  }

  lemma SpoiltXor(pwd: seq<byte>, n: nat)
    requires pwd != [] && n < 2
    ensures
      var p, q := Counted(pwd), Counted(Spoilt(pwd, n));
      |p| == |q| && p[1..] == q[1..] && Xor(XorAll(p), XorAll(q)) == Xor(pwd[0], Other(pwd[0], n))
  {
    hide Xor;
    var p, q := Counted(pwd), Counted(Spoilt(pwd, n));
    var rest := XorAll(p[1..]);
    assert q == p[0 := Other(pwd[0], n)];
    assert p[1..] == q[1..];
    XorAssociates(p[0], rest, Xor(q[0], rest));
    XorCommutes(q[0], rest);
    XorAssociates(rest, rest, q[0]);
    XorSameIff(rest, rest);
    XorCommutes(0, q[0]);
    XorZero(q[0]);
  }

  /** The server refuses the right password, as no account is found. */
  predicate Refuses(saved: Block, usr: seq<byte>, pwd: seq<byte>, n: nat)
    requires pwd != [] && n < 2
  {
    TryAccounts(saved, saved, usr, Cipher(TrialBlock(saved, pwd), MAGIC), TwoAccounts(usr, pwd, n), 0).found == -1
  }

  /** For every name, every password and every state of the session there is an account of that
      name that, coming first, makes the server refuse the right password. */
  lemma RightPasswordRefused(saved: Block, usr: seq<byte>, pwd: seq<byte>)
    requires pwd != [] && CString(pwd)
    ensures exists n :: 0 <= n < 2 && CString(Spoilt(pwd, n)) && Refuses(saved, usr, pwd, n)
  {
    hide Cipher, Plain, TryAccounts, TrialBlock, Xor, XorAll, Counted, Trunc;
    var check := Cipher(TrialBlock(saved, pwd), MAGIC);
    RefusedUnless(saved, usr, pwd, 0);
    RefusedUnless(saved, usr, pwd, 1);
    var d0, d1 := Xor(pwd[0], Other(pwd[0], 0)), Xor(pwd[0], Other(pwd[0], 1));
    SameMask(MAGIC[0], d0, d1);
    SameMask(pwd[0], Other(pwd[0], 0), Other(pwd[0], 1));
    assert Other(pwd[0], 0) != Other(pwd[0], 1);
    if check == MAGIC[0 := Xor(MAGIC[0], d0)] {
      assert check[0] == Xor(MAGIC[0], d0);
      assert check != MAGIC[0 := Xor(MAGIC[0], d1)];
    }
  }

  lemma SameMask(x: byte, a: byte, b: byte)
    ensures Xor(x, a) == Xor(x, b) <==> a == b
  {
    hide Xor;
    XorCommutes(x, a);
    XorCommutes(x, b);
    XorTwice(a, x);
    XorTwice(b, x);
  }

  lemma RefusedUnless(saved: Block, usr: seq<byte>, pwd: seq<byte>, n: nat)
    requires pwd != [] && CString(pwd) && n < 2
    ensures CString(Spoilt(pwd, n))
    ensures
      var check := Cipher(TrialBlock(saved, pwd), MAGIC);
      check != MAGIC[0 := Xor(MAGIC[0], Xor(pwd[0], Other(pwd[0], n)))]
      ==> Refuses(saved, usr, pwd, n)
  {
    hide Cipher, Plain, TrialBlock, Xor, XorAll, TryAccounts;
    var accounts, q := TwoAccounts(usr, pwd, n), Spoilt(pwd, n);
    SpoiltXor(pwd, n);
    assert NameMatches(usr, accounts[0]) && NameMatches(usr, accounts[1]);
    assert Tried(usr, accounts, 1, 1) == [];
    assert Tried(usr, accounts, 0, 1) == [q];
    SecondAccountAcceptedIff(saved, usr, pwd, accounts, 1, q);
    XorSameIff(pwd[0], Other(pwd[0], n));
    XorSameIff(XorAll(Counted(pwd)), XorAll(Counted(q)));
    PassesIffAlike(saved, pwd, q);
    NotFirst(saved, usr, Cipher(TrialBlock(saved, pwd), MAGIC), accounts);
  }

  /** If the first account's password fails, the first account is not the one found. */
  lemma NotFirst(saved: Block, usr: seq<byte>, buf: seq<byte>, accounts: seq<Account>)
    requires |accounts| > 0 && Plain(TrialBlock(saved, accounts[0].pwd), buf) != MAGIC
    ensures TryAccounts(saved, saved, usr, buf, accounts, 0).found != 0
  {
    hide Plain, Trunc;
  }

  /** The first account of the name, with a password of the client's length, is accepted exactly if
      the two passwords are alike. */
  lemma FirstAccountAcceptedIff(saved: Block, usr: seq<byte>, pwd: seq<byte>, accounts: seq<Account>, k: nat)
    requires k < |accounts| && NameMatches(usr, accounts[k]) && Tried(usr, accounts, 0, k) == []
    requires |Counted(accounts[k].pwd)| == |Counted(pwd)|
    ensures TryAccounts(saved, saved, usr, Cipher(TrialBlock(saved, pwd), MAGIC), accounts, 0).found == k <==> Alike(pwd, accounts[k].pwd)
  {
    hide Cipher, Plain, Trunc, XorAll;
    var check := Cipher(TrialBlock(saved, pwd), MAGIC);
    SearchComesTo(saved, saved, usr, check, accounts, 0, k);
    PassesIffAlike(saved, pwd, accounts[k].pwd);
  }

  lemma {:induction false} StringOfPadded(s: seq<byte>, n: nat)
    requires CString(s)
    ensures StringOf(s + Zeros(n)) == s
    decreases |s|
  {
    if s == [] {
      assert s + Zeros(n) == Zeros(n);
    } else {
      assert (s + Zeros(n))[1..] == s[1..] + Zeros(n);
      StringOfPadded(s[1..], n);
    }
  }

  /** The first account with the client's name is number k, and its password is the client's or
      alike. */
  ghost predicate FirstMatch(usr: seq<byte>, pwd: seq<byte>, accounts: seq<Account>, k: nat) {
    && k < |accounts| && NameMatches(usr, accounts[k])
    && (forall i :: 0 <= i < k ==> !NameMatches(usr, accounts[i]))
    && Alike(pwd, accounts[k].pwd)
  }

  /** What the server decrypts from the client's first two messages. */
  lemma ServerSeesUser(up: Block, hash: seq<byte>, usr: seq<byte>)
    requires CString(usr)
    ensures
      var e1 := After(up, hash);
      && Plain(up, Cipher(up, hash)) == hash
      && Plain(e1, Cipher(e1, UserField(usr))) == UserField(usr)
      && StringOf(UserField(usr)) == Trunc(usr, 20)
  {
    hide After, Cipher, Plain;
    PlainOfCipher(up, hash);
    PlainOfCipher(After(up, hash), UserField(usr));
    var u := Trunc(usr, 20);
    StringOfPadded(u, 20 - |u|);
  }

  lemma VerdictAccepts(enc: Block, saved: Block, usr: seq<byte>, pwd: seq<byte>, accounts: seq<Account>, k: nat)
    requires FirstMatch(usr, pwd, accounts, k) && accounts[k].admission == Admitted && accounts[k].maxHops >= -1
    ensures
      var d := TrialBlock(saved, pwd);
      var ack := MAGIC + Zeros(14);
      ServerVerdict(enc, saved, Trunc(usr, 20), Cipher(d, MAGIC), accounts)
      == Accepted(k, After(enc, ack), After(d, MAGIC), Cipher(enc, ack))
  {
    hide After, Cipher, Plain;
    var d := TrialBlock(saved, pwd);
    SkipAccounts(saved, saved, Trunc(usr, 20), Cipher(d, MAGIC), accounts, 0, k);
    AlikeSameBlock(saved, pwd, accounts[k].pwd);
    TrialPassesIff(saved, accounts[k].pwd, Cipher(d, MAGIC));
  }

  lemma ClientAcceptsAck(enc: Block)
    ensures
      var ack := MAGIC + Zeros(14);
      ClientAccepts(enc, Cipher(enc, ack)) && Plain(enc, Cipher(enc, ack)) == ack
  {
    var ack := MAGIC + Zeros(14);
    PlainOfCipher(enc, ack);
    assert ack[..5] == MAGIC[..5];
  }

  /** Login succeeds when the first account with the client's name has the client's password
      or one alike, and is admitted; afterwards each side's encryption block is the other's decryption block. */
  lemma LoginSucceeds(seed: seq<byte>, sha: seq<byte> -> Digest, usr: seq<byte>, pwd: seq<byte>,
                      accounts: seq<Account>, k: nat)
    requires |seed| == 16 && CString(usr) && !Illegal(usr)
    requires FirstMatch(usr, pwd, accounts, k) && accounts[k].admission == Admitted && accounts[k].maxHops >= -1
    ensures
      var a := Agree(seed, sha);
      var h := ClientHello(a.up, a.proof, usr, pwd);
      var o := ServerLogin(a.down, a.up, Arrived(h.proof), Arrived(h.user), Arrived(h.check), accounts);
      var ack := Cipher(a.down, MAGIC + Zeros(14));
      && o == Accepted(k, After(a.down, Plain(a.down, ack)), h.enc, ack)
      && ClientAccepts(a.down, ack)
  {
    hide After, Cipher, Plain, Agree, TryAccounts, UserField, StringOf, FirstMatch, ServerVerdict, NameMatches;
    var a := Agree(seed, sha);
    ServerSeesUser(a.up, a.proof, usr);
    var saved := After(After(a.up, a.proof), UserField(usr));
    VerdictAccepts(a.down, saved, usr, pwd, accounts, k);
    ClientAcceptsAck(a.down);
  }

  // ----- whom the server accepts -----

  /** The account found bears the client's name, as far as the first 20 characters go. */
  lemma {:induction false} FoundBearsName(saved: Block, dec: Block, usr: seq<byte>, buf: seq<byte>, accounts: seq<Account>, k: nat)
    requires k <= |accounts|
    ensures
      var f := TryAccounts(saved, dec, usr, buf, accounts, k).found;
      f >= 0 ==> Trunc(usr, 20) == Trunc(accounts[f].usr, 20)
    decreases |accounts| - k
  {
    hide After, Plain;
    if k < |accounts| {
      if NameMatches(usr, accounts[k]) {
        var d := TrialBlock(saved, accounts[k].pwd);
        var out := Plain(d, buf);
        FoundBearsName(saved, After(d, out), usr, out, accounts, k + 1);
      } else {
        FoundBearsName(saved, dec, usr, buf, accounts, k + 1);
      }
    }
  }

  /** An account that agrees in 20 characters, after accounts that do not, is found exactly if its
      password, of the client's length, is alike. */
  lemma FirstOfNameFound(saved: Block, usr: seq<byte>, pwd: seq<byte>, accounts: seq<Account>, k: nat)
    requires k < |accounts| && |usr| <= 20 && |Counted(accounts[k].pwd)| == |Counted(pwd)|
    requires usr == accounts[k].usr || (|usr| == 20 && usr <= accounts[k].usr)
    requires forall i :: 0 <= i < k ==> usr != accounts[i].usr && (|usr| < 20 || !(usr <= accounts[i].usr))
    ensures TryAccounts(saved, saved, usr, Cipher(TrialBlock(saved, pwd), MAGIC), accounts, 0).found == k <==> Alike(pwd, accounts[k].pwd)
  {
    hide Cipher, Plain, TryAccounts, Alike, TrialBlock;
    NoneTried(usr, accounts, 0, k);
    FirstAccountAcceptedIff(saved, usr, pwd, accounts, k);
  }

  lemma {:induction false} NoneTried(usr: seq<byte>, accounts: seq<Account>, from: nat, to: nat)
    requires from <= to <= |accounts| && forall i :: from <= i < to ==> !NameMatches(usr, accounts[i])
    ensures Tried(usr, accounts, from, to) == []
    decreases |accounts| - from
  {
    if from < to {
      NoneTried(usr, accounts, from + 1, to);
    }
  }

  lemma {:induction false} StringHasNoZero(buf: seq<byte>)
    ensures 0 !in StringOf(buf) && |StringOf(buf)| <= |buf|
    decreases |buf|
  {
    if buf != [] {
      StringHasNoZero(buf[1..]);
    }
  }

  lemma IllegalIff(usr: seq<byte>)
    requires 0 !in usr
    ensures Illegal(usr) <==> exists c :: c in usr && c < 0x20
  {
    if c :| c in usr && c < 0x20 {
      var i :| 0 <= i < |usr| && usr[i] == c;
      assert usr[i] != 0;
    }
    if Illegal(usr) {
      var i :| 0 <= i < |usr| && 0 < usr[i] < 0x20;
      assert usr[i] in usr;
    }
  }

  /** The verdict on a name and six bytes: who is found, whether he is let in, and what is sent. */
  lemma VerdictShows(enc: Block, saved: Block, usr: seq<byte>, check: seq<byte>, accounts: seq<Account>)
    requires |usr| <= 20
    ensures
      var o := ServerVerdict(enc, saved, usr, check, accounts);
      var s := TryAccounts(saved, saved, usr, check, accounts, 0);
      && (s.found == -1 ==> o == Refused(-2))
      && (s.found != -1 ==>
            && (usr == accounts[s.found].usr || (|usr| == 20 && usr <= accounts[s.found].usr))
            && (accounts[s.found].admission == Denied ==> o == Refused(-2))
            && (accounts[s.found].admission == Duplicate ==> o == Refused(-3))
            && (accounts[s.found].admission == Admitted && accounts[s.found].maxHops <= -2 ==> o == Refused(-3))
            && (accounts[s.found].admission == Admitted && accounts[s.found].maxHops >= -1 ==>
                  o.Accepted? && o.account == s.found && o.dec == s.dec && o.enc == After(enc, Plain(enc, o.ack))
                  && Plain(enc, o.ack) == [67, 67, 99, 97, 109] + Zeros(15)))
  {
    hide After, Cipher, Plain, TryAccounts;
    FoundBearsName(saved, saved, usr, check, accounts, 0);
    PlainOfCipher(enc, MAGIC + Zeros(14));
    assert MAGIC + Zeros(14) == [67, 67, 99, 97, 109] + Zeros(15);
  }

  /** What the server answers to a proof and a name of twenty bytes. The name is what it decrypts up to
      the first zero. */
  lemma ServerAnswers(enc: Block, dec: Block, proof: seq<byte>, user: seq<byte>, check: Incoming, accounts: seq<Account>)
    requires |proof| == 20 && |user| == 20
    ensures
      var dec1 := After(dec, Plain(dec, proof));
      var usr := StringOf(Plain(dec1, user));
      var o := ServerLogin(enc, dec, Arrived(proof), Arrived(user), check, accounts);
      && |usr| <= 20
      && ((exists c :: c in usr && c < 0x20) ==> o == Refused(-3))
      && (!(exists c :: c in usr && c < 0x20) && check == Failed ==> o == Refused(-1))
      && (!(exists c :: c in usr && c < 0x20) && check.Arrived? && |check.bytes| != 6 ==> o == Refused(-2))
      && (!(exists c :: c in usr && c < 0x20) && check.Arrived? && |check.bytes| == 6 ==>
            o == ServerVerdict(enc, After(dec1, Plain(dec1, user)), usr, check.bytes, accounts))
  {
    hide After, Cipher, Plain, TryAccounts, StringOf, Illegal, ServerVerdict;
    var dec1 := After(dec, Plain(dec, proof));
    StringHasNoZero(Plain(dec1, user));
    IllegalIff(StringOf(Plain(dec1, user)));
  }

  /** Messages of another length, or none, are refused before any name is looked up. */
  lemma ServerNeedsMessages(enc: Block, dec: Block, proof: Incoming, user: Incoming, check: Incoming, accounts: seq<Account>)
    ensures
      var o := ServerLogin(enc, dec, proof, user, check, accounts);
      && (proof == Failed || |proof.bytes| != 20 ==> o == Refused(-1))
      && (proof.Arrived? && |proof.bytes| == 20 && user == Failed ==> o == Refused(-1))
      && (proof.Arrived? && |proof.bytes| == 20 && user.Arrived? && |user.bytes| != 20 ==> o == Refused(-2))
  {
    hide After, Plain, TryAccounts, StringOf;
  }

  /** The client takes twenty bytes for an answer exactly if they decrypt to "CCcam" and anything. */
  lemma ClientAcceptsIff(dec: Block, plain: seq<byte>)
    ensures ClientAccepts(dec, Cipher(dec, plain)) <==> |plain| == 20 && plain[..5] == [67, 67, 99, 97, 109]
  {
    hide Cipher, Plain;
    PlainOfCipher(dec, plain);
    assert MAGIC[..5] == [67, 67, 99, 97, 109];
  }

  /** Of a password 64 characters count, all of them if there are no more. */
  lemma SixtyFourCount(saved: Block, pwd: seq<byte>)
    ensures TrialBlock(saved, pwd) == After(saved, if |pwd| <= 64 then pwd else pwd[..64])
    ensures Counted(pwd) == if |pwd| <= 64 then pwd else pwd[..64]
  {
    hide After;
  }

  /** What the client says, as its peer decrypts it: the digest, the first 20 characters of the name and
      zeros, and "CCcam" with a zero under the block that has the password in it. */
  lemma ClientSays(enc: Block, hash: seq<byte>, usr: seq<byte>, pwd: seq<byte>)
    ensures
      var h := ClientHello(enc, hash, usr, pwd);
      var e1 := After(enc, hash);
      var user := Plain(e1, h.user);
      var e3 := After(After(e1, user), if |pwd| <= 64 then pwd else pwd[..64]);
      && Plain(enc, h.proof) == hash && |user| == 20
      && (|usr| >= 20 ==> user == usr[..20]) && (|usr| < 20 ==> user == usr + Zeros(20 - |usr|))
      && Plain(e3, h.check) == [67, 67, 99, 97, 109, 0] && h.enc == After(e3, [67, 67, 99, 97, 109, 0])
  {
    hide After, Cipher, Plain;
    var e1 := After(enc, hash);
    PlainOfCipher(enc, hash);
    PlainOfCipher(e1, UserField(usr));
    PlainOfCipher(After(After(e1, UserField(usr)), Trunc(pwd, 64)), MAGIC);
    if |usr| >= 20 {
      assert UserField(usr) == usr[..20] + Zeros(0) == usr[..20];
    }
  }

  // ----- what counts of the seed -----

  /** Only the first half of the seed counts: the second half of the masked seed is made of it. */
  lemma HalfSeedCounts(seed: seq<byte>, other: seq<byte>)
    requires |seed| == 16 && |other| == 16
    ensures XorSeed(seed) == XorSeed(other) <==> seed[..8] == other[..8]
  {
    var r, t := XorSeed(seed), XorSeed(other);
    if r == t {
      forall i | 0 <= i < 8
        ensures seed[i] == other[i]
      {
        assert r[i] == t[i];
        XorTwice(seed[i], MAGIC[if i < 6 then i else 0]);
        XorTwice(other[i], MAGIC[if i < 6 then i else 0]);
      }
    }
    if seed[..8] == other[..8] {
      assert forall i :: 0 <= i < 8 ==> seed[i] == seed[..8][i] && other[i] == other[..8][i];
    }
  }

  /** The masked seed, place by place. */
  lemma SeedMasked(seed: seq<byte>, i: nat)
    requires |seed| == 16 && i < 8
    ensures Xor(XorSeed(seed)[i], seed[i]) == [67, 67, 99, 97, 109, 0, 0, 0][i]
    ensures XorSeed(seed)[8 + i] as int == i * seed[i] % 256
  {
    hide Xor;
    if i < 6 {
      XorCommutes(seed[i], MAGIC[i]);
      XorTwice(MAGIC[i], seed[i]);
    } else {
      XorSameIff(seed[i], seed[i]);
    }
  }

  /** What both sides agree on, told from the two plaintexts: d is the seed as one block decrypts it,
      and the proof is the digest as the other does. */
  lemma AgreedOn(seed: seq<byte>, sha: seq<byte> -> Digest, d: seq<byte>)
    requires |seed| == 16 && Cipher(InitBlock(sha(XorSeed(seed))), d) == XorSeed(seed)
    ensures
      var a := Agree(seed, sha);
      var hash := sha(XorSeed(seed));
      && |d| == 16 && Cipher(InitBlock(d), a.proof) == hash
      && a.down == After(InitBlock(hash), d) && a.down.counter == 16 && a.down.state == Xor(hash[0], XorAll(d))
      && a.up == After(InitBlock(d), a.proof) && a.up.counter == 20 && a.up.state == Xor(d[0], XorAll(a.proof))
  {
    hide After, Cipher, Plain, InitBlock, XorSeed, Xor, XorAll;
    var hash := sha(XorSeed(seed));
    PlainOfCipher(InitBlock(hash), d);
    CipherOfPlain(InitBlock(d), hash);
    KeyedState(hash, d);
    KeyedState(d, Plain(InitBlock(d), hash));
  }
}
