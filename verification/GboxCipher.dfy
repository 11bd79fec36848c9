/** The gbox buffer cipher (module-gbox-helper.c): in-place mixing of bytes under a four-byte
    key that is rotated by one bit before every step and threaded through all routines. */
module GboxCipher {
  import opened Bytes

  const LOOKUP_TABLE: seq<byte> := [
    0x25, 0x38, 0xD4, 0xCD, 0x17, 0x7A, 0x5E, 0x6C, 0x52, 0x42, 0xFE, 0x68, 0xAB, 0x3F, 0xF7, 0xBE,
    0x47, 0x57, 0x71, 0xB0, 0x23, 0xC1, 0x26, 0x6C, 0x41, 0xCE, 0x94, 0x37, 0x45, 0x04, 0xA2, 0xEA,
    0x07, 0x58, 0x35, 0x55, 0x08, 0x2A, 0x0F, 0xE7, 0xAC, 0x76, 0xF0, 0xC1, 0xE6, 0x09, 0x10, 0xDD,
    0xC5, 0x8D, 0x2E, 0xD9, 0x03, 0x9C, 0x3D, 0x2C, 0x4D, 0x41, 0x0C, 0x5E, 0xDE, 0xE4, 0x90, 0xAE]

  type Pass = p: seq<byte> | |p| == 4 witness seq(4, _ => 0)
  type Octet = b: seq<byte> | |b| == 8 witness seq(8, _ => 0)

  /** The two mixing rules: gbox_encrypt8 and gbox_encryptA. */
  datatype Rule = EIGHT | A

  datatype State = State(buf: Octet, pass: Pass)

  // ----- key rotation -----

  /** One byte of a one-bit rotation of the whole key, to the right and to the left. */
  function ShiftR(x: byte, before: byte): (r: byte) {
    var bit := before % 2;
    if bit == 1 then x / 2 + 0x80 else x / 2
  }

  function ShiftL(x: byte, next: byte): (r: byte) {
    var carry := next / 0x80;
    if x < 0x80 then 2 * (x as int) + carry else 2 * (x as int) - 256 + carry
  }

  function RotR(p: Pass): Pass {
    [ShiftR(p[0], p[3]), ShiftR(p[1], p[0]), ShiftR(p[2], p[1]), ShiftR(p[3], p[2])]
  }

  function RotL(p: Pass): Pass {
    [ShiftL(p[0], p[1]), ShiftL(p[1], p[2]), ShiftL(p[2], p[3]), ShiftL(p[3], p[0])]
  }

  // ----- one step -----

  function Lookup(x: byte): byte { LOOKUP_TABLE[x % 0x40] }

  /** The new value of byte k + 1, from its old value x, byte k and two key bytes. */
  function Mix(rule: Rule, x: byte, y: byte, p: byte, q: byte): byte {
    match rule
    case EIGHT =>
      Sub(Xor(Lookup(Sub(y, p)), Sub(x, Lookup(y / 4))), q)
    case A =>
      Add(q, Xor(Lookup(Sub(y, p)), Add(Lookup(Xor(p, y) / 4) * 2 % 256, x)))
  }

  function Unmix(rule: Rule, x: byte, y: byte, p: byte, q: byte): byte {
    match rule
    case EIGHT =>
      Add(Lookup(y / 4), Xor(Lookup(Sub(y, p)), Add(q, x)))
    case A =>
      Sub(Xor(Lookup(Sub(y, p)), Sub(x, q)), Lookup(Xor(p, y) / 4) * 2 % 256)
  }

  function Encrypt1(rule: Rule, s: State, k: nat): State
    requires k < 8
  {
    var p := RotR(s.pass);
    var j := (k + 1) % 8;
    State(s.buf[j := Mix(rule, s.buf[j], s.buf[k], p[(k + 1) % 4], p[k % 4])], p)
  }

  function Decrypt1(rule: Rule, s: State, k: nat): State
    requires k < 8
  {
    var j := (k + 1) % 8;
    State(s.buf[j := Unmix(rule, s.buf[j], s.buf[k], s.pass[(k + 1) % 4], s.pass[k % 4])], RotL(s.pass))
  }

  /** The first n steps of a routine: encryption walks the byte index down, decryption up. */
  function EncryptSteps(rule: Rule, s: State, n: nat): State {
    if n == 0 then s else Encrypt1(rule, EncryptSteps(rule, s, n - 1), 7 - (n - 1) % 8)
  }

  function DecryptSteps(rule: Rule, s: State, n: nat): State {
    if n == 0 then s else Decrypt1(rule, DecryptSteps(rule, s, n - 1), (n - 1) % 8)
  }

  // ----- the steps are inverses of each other -----

  lemma RotInverse(p: Pass)
    ensures RotL(RotR(p)) == p && RotR(RotL(p)) == p
  {
    hide ShiftR, ShiftL;
    ShiftInverse(p[0], p[3], p[1]);
    ShiftInverse(p[1], p[0], p[2]);
    ShiftInverse(p[2], p[1], p[3]);
    ShiftInverse(p[3], p[2], p[0]);
  }

  lemma ShiftInverse(x: byte, before: byte, next: byte)
    ensures ShiftL(ShiftR(x, before), ShiftR(next, x)) == x
    ensures ShiftR(ShiftL(x, next), ShiftL(before, x)) == x
  {
    hide ShiftR, ShiftL;
    RightThenLeft(x, before, next);
    LeftThenRight(x, before, next);
  }

  lemma RightThenLeft(x: byte, before: byte, next: byte)
    ensures ShiftL(ShiftR(x, before), ShiftR(next, x)) == x
  {
    var r, n := ShiftR(x, before), ShiftR(next, x);
    assert n / 0x80 == x % 2;
  }

  lemma LeftThenRight(x: byte, before: byte, next: byte)
    ensures ShiftR(ShiftL(x, next), ShiftL(before, x)) == x
  {
    var l, b := ShiftL(x, next), ShiftL(before, x);
    assert b % 2 == x / 0x80;
  }

  lemma AddSub(x: byte, y: byte)
    ensures Add(y, Sub(x, y)) == x && Sub(Add(y, x), y) == x
  {
    assert Sub(x, y) == if y <= x then x - y else x - y + 256;
    assert Add(y, x) == if y + x < 256 then y + x else y + x - 256;
  }

  lemma XorCancels(l: byte, x: byte)
    ensures Xor(l, Xor(l, x)) == x
  {
    XorCommutes(l, x);
    XorTwice(x, l);
    XorCommutes(l, Xor(x, l));
  }

  lemma MixInverse(rule: Rule, x: byte, y: byte, p: byte, q: byte)
    ensures Unmix(rule, Mix(rule, x, y, p, q), y, p, q) == x
    ensures Mix(rule, Unmix(rule, x, y, p, q), y, p, q) == x
  {
    hide Lookup, Xor, Add, Sub;
    var l := Lookup(Sub(y, p));
    match rule {
      case EIGHT =>
        var m := Lookup(y / 4);
        AddSub(Xor(l, Sub(x, m)), q);
        XorCancels(l, Sub(x, m));
        AddSub(x, m);
        AddSub(Xor(l, Add(q, x)), m);
        XorCancels(l, Add(q, x));
        AddSub(x, q);
      case A =>
        var m := Lookup(Xor(p, y) / 4) * 2 % 256;
        AddSub(Xor(l, Add(m, x)), q);
        XorCancels(l, Add(m, x));
        AddSub(x, m);
        AddSub(Xor(l, Sub(x, q)), m);
        XorCancels(l, Sub(x, q));
        AddSub(x, q);
    }
  }

  lemma StepInverse(rule: Rule, s: State, k: nat)
    requires k < 8
    ensures Decrypt1(rule, Encrypt1(rule, s, k), k) == s
    ensures Encrypt1(rule, Decrypt1(rule, s, k), k) == s
  {
    hide Mix, Unmix, RotR, RotL;
    RotInverse(s.pass);
    var j := (k + 1) % 8;
    var p := RotR(s.pass);
    MixInverse(rule, s.buf[j], s.buf[k], p[(k + 1) % 4], p[k % 4]);
    MixInverse(rule, s.buf[j], s.buf[k], s.pass[(k + 1) % 4], s.pass[k % 4]);
  }

  lemma Mirror(n: nat)
    requires 1 <= n <= 32
    ensures 7 - (32 - n) % 8 == (n - 1) % 8
  {
  }

  /** Undoing the last n of 32 steps, in either direction. */
  lemma {:induction false} Peel(rule: Rule, s: State, n: nat)
    requires n <= 32
    ensures DecryptSteps(rule, EncryptSteps(rule, s, 32), n) == EncryptSteps(rule, s, 32 - n)
    ensures EncryptSteps(rule, DecryptSteps(rule, s, 32), n) == DecryptSteps(rule, s, 32 - n)
  {
    hide Encrypt1, Decrypt1;
    if n > 0 {
      Peel(rule, s, n - 1);
      var m := 32 - n;
      var k := (n - 1) % 8;
      Mirror(n);
      StepInverse(rule, EncryptSteps(rule, s, m), k);
      StepInverse(rule, DecryptSteps(rule, s, m), 7 - k);
    }
  }

  // ----- the key comes back -----

  function Rotations(p: Pass, n: nat): Pass {
    if n == 0 then p else RotR(Rotations(p, n - 1))
  }

  /** The low n bits of x, lowest first, and the number that a list of bits stands for. */
  function Bits(x: nat, n: nat): (b: seq<nat>)
    ensures |b| == n && forall k :: 0 <= k < n ==> b[k] < 2
  {
    if n == 0 then [] else [x % 2] + Bits(x / 2, n - 1)
  }

  function Value(b: seq<nat>): nat {
    if b == [] then 0 else b[0] + 2 * Value(b[1..])
  }

  lemma {:induction false} ValueOfBits(x: nat, n: nat)
    requires x < Pow2(n)
    ensures Value(Bits(x, n)) == x
  {
    if n > 0 {
      ValueOfBits(x / 2, n - 1);
      assert Bits(x, n)[1..] == Bits(x / 2, n - 1);
    }
  }

  lemma {:induction false} ValueSnoc(b: seq<nat>, bit: nat)
    ensures Value(b + [bit]) == Value(b) + Pow2(|b|) * bit
    decreases |b|
  {
    if b == [] {
      assert Value([bit]) == bit + 2 * Value([]);
    } else {
      assert (b + [bit])[1..] == b[1..] + [bit];
      ValueSnoc(b[1..], bit);
      assert 2 * (Pow2(|b| - 1) * bit) == Pow2(|b|) * bit;
    }
  }

  lemma {:induction false} ValueBound(b: seq<nat>)
    requires forall k :: 0 <= k < |b| ==> b[k] < 2
    ensures Value(b) < Pow2(|b|)
    decreases |b|
  {
    if b != [] {
      ValueBound(b[1..]);
    }
  }

  /** A byte after i rotations: its own high bits and the low bits of the byte before it. */
  function Shifted(x: byte, before: byte, i: nat): (b: seq<nat>)
    requires i <= 8
    ensures |b| == 8 && forall k :: 0 <= k < 8 ==> b[k] < 2
  {
    Bits(x, 8)[i..] + Bits(before, 8)[..i]
  }

  lemma ShiftedStep(x: byte, before: byte, beforeThat: byte, i: nat)
    requires i < 8
    ensures Value(Shifted(x, before, i)) < 256 && Value(Shifted(before, beforeThat, i)) < 256
    ensures ShiftR(Value(Shifted(x, before, i)), Value(Shifted(before, beforeThat, i))) == Value(Shifted(x, before, i + 1))
  {
    hide Bits;
    var b, c := Shifted(x, before, i), Shifted(before, beforeThat, i);
    assert Pow2(8) == 256 && Pow2(7) == 128;
    ValueBound(b);
    ValueBound(c);
    ValueSnoc(b[1..], c[0]);
    assert Shifted(x, before, i + 1) == b[1..] + [c[0]];
    ShiftOfBits(b[0], Value(b[1..]), c[0], Value(c[1..]));
  }

  lemma ShiftOfBits(low: nat, high: nat, bit: nat, rest: nat)
    requires low < 2 && bit < 2 && low + 2 * high < 256 && bit + 2 * rest < 256
    ensures ShiftR(low + 2 * high, bit + 2 * rest) == high + 128 * bit
  {
  }

  lemma ShiftedEnds(x: byte, before: byte)
    ensures Value(Shifted(x, before, 0)) == x && Value(Shifted(x, before, 8)) == before
  {
    assert Pow2(8) == 256;
    ValueOfBits(x, 8);
    ValueOfBits(before, 8);
    assert Shifted(x, before, 0) == Bits(x, 8) && Shifted(x, before, 8) == Bits(before, 8);
  }

  lemma {:induction false} ByteRotation(p: Pass, i: nat)
    requires i <= 8
    ensures
      var r := Rotations(p, i);
      && r[0] == Value(Shifted(p[0], p[3], i)) && r[1] == Value(Shifted(p[1], p[0], i))
      && r[2] == Value(Shifted(p[2], p[1], i)) && r[3] == Value(Shifted(p[3], p[2], i))
  {
    hide Shifted, Value, ShiftR;
    if i == 0 {
      ShiftedEnds(p[0], p[3]);
      ShiftedEnds(p[1], p[0]);
      ShiftedEnds(p[2], p[1]);
      ShiftedEnds(p[3], p[2]);
    } else {
      ByteRotation(p, i - 1);
      ShiftedStep(p[0], p[3], p[2], i - 1);
      ShiftedStep(p[1], p[0], p[3], i - 1);
      ShiftedStep(p[2], p[1], p[0], i - 1);
      ShiftedStep(p[3], p[2], p[1], i - 1);
    }
  }

  lemma {:induction false} RotationsAdd(p: Pass, m: nat, n: nat)
    ensures Rotations(p, m + n) == Rotations(Rotations(p, m), n)
  {
    hide RotR;
    if n > 0 {
      RotationsAdd(p, m, n - 1);
    }
  }

  lemma {:induction false} EightRotations(p: Pass)
    ensures Rotations(p, 8) == [p[3], p[0], p[1], p[2]]
  {
    hide Rotations, Shifted, Value;
    ByteRotation(p, 8);
    ShiftedEnds(p[0], p[3]);
    ShiftedEnds(p[1], p[0]);
    ShiftedEnds(p[2], p[1]);
    ShiftedEnds(p[3], p[2]);
  }

  /** 32 one-bit rotations give the key back. */
  lemma FullRotation(p: Pass)
    ensures Rotations(p, 32) == p
  {
    hide Rotations;
    var p1: Pass := [p[3], p[0], p[1], p[2]];
    var p2: Pass := [p[2], p[3], p[0], p[1]];
    var p3: Pass := [p[1], p[2], p[3], p[0]];
    EightRotations(p);
    EightRotations(p1);
    EightRotations(p2);
    EightRotations(p3);
    RotationsAdd(p, 8, 8);
    RotationsAdd(p, 16, 8);
    RotationsAdd(p, 24, 8);
  }

  lemma {:induction false} EncryptRotates(rule: Rule, s: State, n: nat)
    ensures EncryptSteps(rule, s, n).pass == Rotations(s.pass, n)
  {
    hide Mix, RotR;
    if n > 0 {
      EncryptRotates(rule, s, n - 1);
    }
  }

  /** A whole routine: the eight bytes it leaves. */
  function Encrypt8(rule: Rule, buf: Octet, pass: Pass): Octet {
    EncryptSteps(rule, State(buf, pass), 32).buf
  }

  function Decrypt8(rule: Rule, buf: Octet, pass: Pass): Octet {
    DecryptSteps(rule, State(buf, pass), 32).buf
  }

  /** Each routine hands the key back as it got it, and the two undo each other. */
  lemma RoutineInverse(rule: Rule, buf: Octet, pass: Pass)
    ensures EncryptSteps(rule, State(buf, pass), 32) == State(Encrypt8(rule, buf, pass), pass)
    ensures DecryptSteps(rule, State(buf, pass), 32) == State(Decrypt8(rule, buf, pass), pass)
    ensures Decrypt8(rule, Encrypt8(rule, buf, pass), pass) == buf
    ensures Encrypt8(rule, Decrypt8(rule, buf, pass), pass) == buf
  {
    hide EncryptSteps, DecryptSteps;
    var s := State(buf, pass);
    EncryptKeepsPass(rule, s);
    DecryptKeepsPass(rule, s);
    Peel(rule, s, 32);
    StepsZero(rule, s);
  }

  lemma StepsZero(rule: Rule, s: State)
    ensures EncryptSteps(rule, s, 0) == s && DecryptSteps(rule, s, 0) == s
  {
  }

  lemma EncryptKeepsPass(rule: Rule, s: State)
    ensures EncryptSteps(rule, s, 32).pass == s.pass
  {
    hide EncryptSteps, Rotations;
    EncryptRotates(rule, s, 32);
    FullRotation(s.pass);
  }

  lemma DecryptKeepsPass(rule: Rule, s: State)
    ensures DecryptSteps(rule, s, 32).pass == s.pass
  {
    hide EncryptSteps, DecryptSteps;
    var t := DecryptSteps(rule, s, 32);
    Peel(rule, s, 32);
    StepsZero(rule, s);
    EncryptKeepsPass(rule, t);
  }

  // ----- whole buffers -----

  /** The eight bytes at off replaced. */
  function Patch(s: seq<byte>, off: nat, b: Octet): (r: seq<byte>)
    requires off + 8 <= |s|
    ensures |r| == |s|
  {
    s[..off] + b + s[off + 8..]
  }

  function EncryptAt(rule: Rule, s: seq<byte>, off: nat, pass: Pass): (r: seq<byte>)
    requires off + 8 <= |s|
    ensures |r| == |s|
  {
    Patch(s, off, Encrypt8(rule, s[off..off + 8], pass))
  }

  function DecryptAt(rule: Rule, s: seq<byte>, off: nat, pass: Pass): (r: seq<byte>)
    requires off + 8 <= |s|
    ensures |r| == |s|
  {
    Patch(s, off, Decrypt8(rule, s[off..off + 8], pass))
  }

  /** Every byte before the last one of the first n is mixed with its neighbour. */
  function Chain(s: seq<byte>, n: nat): (r: seq<byte>)
    requires 0 < n <= |s|
    ensures |r| == |s|
  {
    seq(|s|, (i: nat) requires i < |s| => if i < n - 1 then Xor(s[i + 1], s[i]) else s[i])
  }

  /** The same mixing undone from the end down to position c. */
  function Unchain(s: seq<byte>, n: nat, c: nat): (r: seq<byte>)
    requires 0 < n <= |s| && c <= n - 1
    ensures |r| == |s|
    decreases n - c
  {
    if c == n - 1 then s
    else
      var r := Unchain(s, n, c + 1);
      r[c := Xor(r[c + 1], r[c])]
  }

  function PasswordOf(key: nat): Pass {
    [key / 0x1000000 % 256, key / 0x10000 % 256, key / 0x100 % 256, key % 256]
  }

  function EncryptBuffer(s: seq<byte>, n: nat, key: nat): (r: seq<byte>)
    requires 9 <= n <= |s|
    ensures |r| == |s|
  {
    var p := PasswordOf(key);
    DecryptAt(EIGHT, EncryptAt(EIGHT, Chain(EncryptAt(A, s, 0, p), n), 0, p), n - 9, p)
  }

  function DecryptBuffer(s: seq<byte>, n: nat, key: nat): (r: seq<byte>)
    requires 9 <= n <= |s|
    ensures |r| == |s|
  {
    var p := PasswordOf(key);
    DecryptAt(A, Unchain(DecryptAt(EIGHT, EncryptAt(EIGHT, s, n - 9, p), 0, p), n, 0), 0, p)
  }

  lemma PatchTwice(s: seq<byte>, off: nat, b: Octet, c: Octet)
    requires off + 8 <= |s|
    ensures Patch(s, off, b)[off..off + 8] == b
    ensures Patch(Patch(s, off, b), off, c) == Patch(s, off, c)
    ensures Patch(s, off, s[off..off + 8]) == s
  {
  }

  lemma AtInverse(rule: Rule, s: seq<byte>, off: nat, pass: Pass)
    requires off + 8 <= |s|
    ensures DecryptAt(rule, EncryptAt(rule, s, off, pass), off, pass) == s
    ensures EncryptAt(rule, DecryptAt(rule, s, off, pass), off, pass) == s
  {
    hide Patch, Encrypt8, Decrypt8;
    var b := s[off..off + 8];
    var e, d := Encrypt8(rule, b, pass), Decrypt8(rule, b, pass);
    RoutineInverse(rule, b, pass);
    PatchTwice(s, off, e, b);
    PatchTwice(s, off, d, b);
  }

  lemma {:induction false} UnchainTail(s: seq<byte>, n: nat, c: nat)
    requires 0 < n <= |s| && c <= n - 1
    ensures forall i :: 0 <= i < c || n - 1 <= i < |s| ==> Unchain(s, n, c)[i] == s[i]
    ensures forall i :: c <= i < n - 1 ==> Unchain(s, n, c)[i] == Xor(Unchain(s, n, c)[i + 1], s[i])
    decreases n - c
  {
    hide Xor;
    if c < n - 1 {
      UnchainTail(s, n, c + 1);
    }
  }

  lemma {:induction false} UnchainOfChain(s: seq<byte>, n: nat, c: nat)
    requires 0 < n <= |s| && c <= n - 1
    ensures forall i :: c <= i < |s| ==> Unchain(Chain(s, n), n, c)[i] == s[i]
    decreases n - c
  {
    hide Xor;
    if c < n - 1 {
      UnchainOfChain(s, n, c + 1);
      UnchainTail(Chain(s, n), n, c + 1);
      var r := Unchain(Chain(s, n), n, c + 1);
      assert r[c + 1] == s[c + 1] && r[c] == Xor(s[c + 1], s[c]);
      XorCancels(s[c + 1], s[c]);
    }
  }

  /** The neighbour mixing is undone, in both orders. */
  lemma {:induction false} ChainInverse(s: seq<byte>, n: nat)
    requires 0 < n <= |s|
    ensures Unchain(Chain(s, n), n, 0) == s
    ensures Chain(Unchain(s, n, 0), n) == s
  {
    hide Xor, Unchain;
    UnchainOfChain(s, n, 0);
    var u := Unchain(s, n, 0);
    UnchainTail(s, n, 0);
    forall i | 0 <= i < |s|
      ensures Chain(u, n)[i] == s[i]
    {
      if i < n - 1 {
        XorCancels(u[i + 1], s[i]);
      }
    }
  }

  /** gbox_decrypt undoes gbox_encrypt and conversely, for every buffer of at least nine bytes
      and every key; the blocks at its head and tail may overlap. */
  lemma BufferInverse(s: seq<byte>, n: nat, key: nat)
    requires 9 <= n <= |s|
    ensures DecryptBuffer(EncryptBuffer(s, n, key), n, key) == s
    ensures EncryptBuffer(DecryptBuffer(s, n, key), n, key) == s
  {
    hide EncryptAt, DecryptAt, Chain, Unchain, PasswordOf;
    var p := PasswordOf(key);
    var a := EncryptAt(A, s, 0, p);
    var c := Chain(a, n);
    AtInverse(A, s, 0, p);
    ChainInverse(a, n);
    AtInverse(EIGHT, c, 0, p);
    AtInverse(EIGHT, EncryptAt(EIGHT, c, 0, p), n - 9, p);
    var t := EncryptAt(EIGHT, s, n - 9, p);
    var h := DecryptAt(EIGHT, t, 0, p);
    var u := Unchain(h, n, 0);
    AtInverse(EIGHT, s, n - 9, p);
    AtInverse(EIGHT, t, 0, p);
    ChainInverse(h, n);
    AtInverse(A, u, 0, p);
  }

  // ----- key, steps and places told in numbers -----

  /** The key bytes stand with the high byte first, so that keys of 32 bits are told apart. */
  lemma KeyBytes(key: nat)
    ensures FromBe(PasswordOf(key)) == key % 0x100000000
  {
    assert PasswordOf(key) == Be4(key);
    FromBe4(key);
  }

  lemma OtherKeyOtherBytes(key: nat, other: nat)
    requires key < 0x100000000 && other < 0x100000000
    ensures FromBe(PasswordOf(key)) == key
    ensures PasswordOf(key) == PasswordOf(other) <==> key == other
  {
    hide PasswordOf, FromBe;
    KeyBytes(key);
    KeyBytes(other);
  }

  /** One step of the first routine, with values of which one in the exclusive or is zero. */
  lemma KnownEight()
    ensures RotR([24, 45, 92, 127]) == [140, 22, 174, 63]
    ensures Encrypt1(EIGHT, State([46, 2, 3, 4, 5, 6, 7, 200], [24, 45, 92, 127]), 7)
         == State([159, 2, 3, 4, 5, 6, 7, 200], [140, 22, 174, 63])
  {
    hide Xor, Lookup;
    KnownLookups();
    XorZero(222);
  }

  /** And two of the other, with a zero key byte and with a zero neighbour. */
  lemma KnownA()
    ensures Encrypt1(A, State([56, 2, 3, 4, 5, 6, 7, 245], [0, 45, 92, 126]), 7)
         == State([219, 2, 3, 4, 5, 6, 7, 245], [0, 22, 174, 63])
  {
    hide Xor, Lookup;
    KnownLookups();
    XorZero(156);
    XorCommutes(0, 245);
    XorZero(245);
  }

  lemma KnownAKey()
    ensures Encrypt1(A, State([118, 2, 3, 4, 5, 6, 7, 0], [130, 45, 92, 127]), 7)
         == State([237, 2, 3, 4, 5, 6, 7, 0], [193, 22, 174, 63])
  {
    hide Xor, Lookup;
    KnownLookups();
    XorZero(174);
    XorZero(193);
  }

  lemma KnownLookups()
    ensures Lookup(50) == 46 && Lookup(200 - 140) == 222 && Lookup(61) == 228 && Lookup(245) == 156 && Lookup(48) == 197
    ensures Lookup(63) == 174 && Lookup(55) == 44 && Lookup(189) == 228
  {
  }

  /** The step of the first routine at the place below. */
  lemma KnownSixth()
    ensures Encrypt1(EIGHT, State([1, 2, 3, 4, 5, 6, 220, 44], [140, 22, 174, 63]), 6)
         == State([1, 2, 3, 4, 5, 6, 220, 141], [198, 11, 87, 31])
  {
    hide Xor, Lookup;
    KnownLookups();
    XorZero(228);
  }

  /** The first step works from the last byte down; eight are a round over all bytes, and rounds follow
      one another. */
  lemma {:induction false} RoundsFollow(rule: Rule, s: State, n: nat)
    ensures EncryptSteps(rule, s, 8 + n) == EncryptSteps(rule, EncryptSteps(rule, s, 8), n)
    ensures DecryptSteps(rule, s, 8 + n) == DecryptSteps(rule, DecryptSteps(rule, s, 8), n)
    ensures EncryptSteps(rule, s, 2) == Encrypt1(rule, Encrypt1(rule, s, 7), 6)
  {
    hide Encrypt1, Decrypt1;
    assert EncryptSteps(rule, s, 1) == Encrypt1(rule, EncryptSteps(rule, s, 0), 7);
    if n > 0 {
      RoundsFollow(rule, s, n - 1);
    }
  }

  /** Eight bytes from off on, each mixed with the next. */
  function Neighbours(s: seq<byte>, off: nat): Octet
    requires off + 9 <= |s|
  {
    [Xor(s[off + 1], s[off]), Xor(s[off + 2], s[off + 1]), Xor(s[off + 3], s[off + 2]), Xor(s[off + 4], s[off + 3]),
     Xor(s[off + 5], s[off + 4]), Xor(s[off + 6], s[off + 5]), Xor(s[off + 7], s[off + 6]), Xor(s[off + 8], s[off + 7])]
  }

  /** In a message of at least 17 bytes head and tail do not meet: the bytes between them are only
      mixed with their neighbours, the last one and what is behind it stay as they were, and head and
      tail are the routines' work on what the mixing made of them. */
  lemma WherePartsGo(s: seq<byte>, n: nat, key: nat)
    requires 17 <= n <= |s|
    ensures
      var p := PasswordOf(key);
      var r := EncryptBuffer(s, n, key);
      && (forall i :: 8 <= i < n - 9 ==> r[i] == Xor(s[i + 1], s[i]))
      && (forall i :: n - 1 <= i < |s| ==> r[i] == s[i])
      && r[..8] == Encrypt8(EIGHT, Neighbours(Encrypt8(A, s[..8], p) + [s[8]], 0), p)
      && r[n - 9..n - 1] == Decrypt8(EIGHT, Neighbours(s, n - 9), p)
  {
    hide Xor, Encrypt8, Decrypt8, PasswordOf, Patch, Chain, Neighbours;
    var p := PasswordOf(key);
    var a := Encrypt8(A, s[..8], p);
    var t := EncryptAt(A, s, 0, p);
    var c := Chain(t, n);
    var h := EncryptAt(EIGHT, c, 0, p);
    assert s[0..8] == s[..8];
    Patched(s, 0, a);
    Chained(t, n);
    Mixed(t, n, 0);
    assert t[0..9] == (a + [s[8]])[0..9];
    SameNeighbours(t, 0, a + [s[8]], 0);
    assert c[0..8] == Neighbours(a + [s[8]], 0);
    var e := Encrypt8(EIGHT, c[0..8], p);
    Patched(c, 0, e);
    Mixed(t, n, n - 9);
    assert t[n - 9..n] == s[n - 9..n];
    SameNeighbours(t, n - 9, s, n - 9);
    SameSlice(h, c, n - 9);
    var d := Decrypt8(EIGHT, h[n - 9..n - 9 + 8], p);
    Patched(h, n - 9, d);
    SameSlice(Patch(h, n - 9, d), h, 0);
    forall i | n - 1 <= i < |s|
      ensures Patch(h, n - 9, d)[i] == s[i]
    {
      assert Patch(h, n - 9, d)[i] == h[i] == c[i] == t[i];
    }
  }

  lemma Patched(s: seq<byte>, off: nat, b: Octet)
    requires off + 8 <= |s|
    ensures forall i :: 0 <= i < |s| && !(off <= i < off + 8) ==> Patch(s, off, b)[i] == s[i]
    ensures Patch(s, off, b)[off..off + 8] == b
    ensures forall i :: off <= i < off + 8 ==> Patch(s, off, b)[i] == b[i - off]
  {
  }

  lemma Chained(s: seq<byte>, n: nat)
    requires 0 < n <= |s|
    ensures forall i :: 0 <= i < n - 1 ==> Chain(s, n)[i] == Xor(s[i + 1], s[i])
    ensures forall i :: n - 1 <= i < |s| ==> Chain(s, n)[i] == s[i]
  {
    hide Xor;
  }

  lemma Mixed(s: seq<byte>, n: nat, off: nat)
    requires off + 9 <= n <= |s|
    ensures Chain(s, n)[off..off + 8] == Neighbours(s, off)
  {
    hide Xor, Chain;
    Chained(s, n);
    var c := Chain(s, n);
    var x := c[off..off + 8];
    assert x[0] == c[off] && x[1] == c[off + 1] && x[2] == c[off + 2] && x[3] == c[off + 3]
        && x[4] == c[off + 4] && x[5] == c[off + 5] && x[6] == c[off + 6] && x[7] == c[off + 7];
  }

  lemma SameNeighbours(s: seq<byte>, off: nat, t: seq<byte>, at: nat)
    requires off + 9 <= |s| && at + 9 <= |t| && s[off..off + 9] == t[at..at + 9]
    ensures Neighbours(s, off) == Neighbours(t, at)
  {
    hide Xor;
    var x, y := s[off..off + 9], t[at..at + 9];
    assert x[0] == s[off] && x[1] == s[off + 1] && x[2] == s[off + 2] && x[3] == s[off + 3] && x[4] == s[off + 4]
        && x[5] == s[off + 5] && x[6] == s[off + 6] && x[7] == s[off + 7] && x[8] == s[off + 8];
    assert y[0] == t[at] && y[1] == t[at + 1] && y[2] == t[at + 2] && y[3] == t[at + 3] && y[4] == t[at + 4]
        && y[5] == t[at + 5] && y[6] == t[at + 6] && y[7] == t[at + 7] && y[8] == t[at + 8];
  }

  lemma SameSlice(s: seq<byte>, t: seq<byte>, off: nat)
    requires off + 8 <= |s| == |t| && forall i :: off <= i < off + 8 ==> s[i] == t[i]
    ensures s[off..off + 8] == t[off..off + 8]
  {
  }

  // ----- the program's own form -----

  /** The rotation at the top of every encryption step. */
  method RotateRight(pass: array<byte>)
    requires pass.Length == 4
    modifies pass
    ensures pass[..] == RotR(old(pass[..]))
  {
    var temp := pass[3];
    pass[3] := ShiftR(pass[3], pass[2]);
    pass[2] := ShiftR(pass[2], pass[1]);
    pass[1] := ShiftR(pass[1], pass[0]);
    pass[0] := ShiftR(pass[0], temp);
  }

  /** The rotation at the bottom of every decryption step. */
  method RotateLeft(pass: array<byte>)
    requires pass.Length == 4
    modifies pass
    ensures pass[..] == RotL(old(pass[..]))
  {
    var temp := pass[0];
    pass[0] := ShiftL(pass[0], pass[1]);
    pass[1] := ShiftL(pass[1], pass[2]);
    pass[2] := ShiftL(pass[2], pass[3]);
    pass[3] := ShiftL(pass[3], temp);
  }

  /** Buffer and key seen as the state of a routine that works at offset off. */
  ghost function View(buffer: array<byte>, off: nat, pass: array<byte>): State
    requires off + 8 <= buffer.Length && pass.Length == 4
    reads buffer, pass
  {
    State(buffer[off..off + 8], pass[..])
  }

  /** Everything but the eight bytes at off is as it was. */
  twostate predicate Outside(buffer: array<byte>, off: nat)
    requires off + 8 <= buffer.Length
    reads buffer
  {
    buffer[..off] == old(buffer[..off]) && buffer[off + 8..] == old(buffer[off + 8..])
  }

  /** The body of the loops of gbox_encrypt8 and gbox_encryptA. */
  method EncryptStep(rule: Rule, buffer: array<byte>, off: nat, pass: array<byte>, k: nat)
    requires off + 8 <= buffer.Length && pass.Length == 4 && buffer != pass && k < 8
    modifies buffer, pass
    ensures View(buffer, off, pass) == Encrypt1(rule, old(View(buffer, off, pass)), k)
    ensures Outside(buffer, off)
  {
    hide Lookup, Xor, Add, Sub, RotR;
    RotateRight(pass);
    var j := off + (k + 1) % 8;
    ghost var b := buffer[off..off + 8];
    if rule == EIGHT {
      buffer[j] := Sub(buffer[j], Lookup(buffer[off + k] / 4));
      buffer[j] := Xor(Lookup(Sub(buffer[off + k], pass[(k + 1) % 4])), buffer[j]);
      buffer[j] := Sub(buffer[j], pass[k % 4]);
    } else {
      var temp := Xor(pass[(k + 1) % 4], buffer[off + k]) / 4;
      buffer[j] := Add(Lookup(temp) * 2 % 256, buffer[j]);
      temp := Sub(buffer[off + k], pass[(k + 1) % 4]);
      buffer[j] := Xor(Lookup(temp), buffer[j]);
      buffer[j] := Add(pass[k % 4], buffer[j]);
    }
    assert buffer[off..off + 8] == b[(k + 1) % 8 := buffer[j]];
  }

  /** The body of the loops of gbox_decrypt8 and gbox_decryptA. */
  method DecryptStep(rule: Rule, buffer: array<byte>, off: nat, pass: array<byte>, k: nat)
    requires off + 8 <= buffer.Length && pass.Length == 4 && buffer != pass && k < 8
    modifies buffer, pass
    ensures View(buffer, off, pass) == Decrypt1(rule, old(View(buffer, off, pass)), k)
    ensures Outside(buffer, off)
  {
    hide Lookup, Xor, Add, Sub, RotL;
    var j := off + (k + 1) % 8;
    ghost var b := buffer[off..off + 8];
    if rule == EIGHT {
      buffer[j] := Add(pass[k % 4], buffer[j]);
      var temp := Sub(buffer[off + k], pass[(k + 1) % 4]);
      buffer[j] := Xor(Lookup(temp), buffer[j]);
      temp := buffer[off + k] / 4;
      buffer[j] := Add(Lookup(temp), buffer[j]);
    } else {
      buffer[j] := Sub(buffer[j], pass[k % 4]);
      var temp := Sub(buffer[off + k], pass[(k + 1) % 4]);
      buffer[j] := Xor(Lookup(temp), buffer[j]);
      temp := Xor(pass[(k + 1) % 4], buffer[off + k]) / 4;
      buffer[j] := Sub(buffer[j], Lookup(temp) * 2 % 256);
    }
    assert buffer[off..off + 8] == b[(k + 1) % 8 := buffer[j]];
    RotateLeft(pass);
  }

  lemma Reassemble(s: seq<byte>, t: seq<byte>, off: nat, b: Octet)
    requires off + 8 <= |s| == |t|
    requires t[..off] == s[..off] && t[off..off + 8] == b && t[off + 8..] == s[off + 8..]
    ensures t == Patch(s, off, b)
  {
    assert t == t[..off] + t[off..off + 8] + t[off + 8..];
  }

  /** gbox_encryptA: one loop. */
  method EncryptA(buffer: array<byte>, off: nat, pass: array<byte>)
    requires off + 8 <= buffer.Length && pass.Length == 4 && buffer != pass
    modifies buffer, pass
    ensures View(buffer, off, pass) == EncryptSteps(A, old(View(buffer, off, pass)), 32)
    ensures Outside(buffer, off)
  {
    hide Encrypt1, EncryptSteps, Mix, Unmix, RotR, RotL;
    ghost var s := View(buffer, off, pass);
    StepsZero(A, s);
    var counter := 0x1F;
    while counter >= 0
      invariant -1 <= counter <= 0x1F
      invariant View(buffer, off, pass) == EncryptSteps(A, s, 0x1F - counter)
      invariant Outside(buffer, off)
    {
      EncryptStep(A, buffer, off, pass, counter % 8);
      EncryptStepsNext(A, s, 0x1F - counter);
      counter := counter - 1;
    }
  }

  /** gbox_encrypt8: the same number of steps in two nested loops. */
  method Encrypt8InPlace(buffer: array<byte>, off: nat, pass: array<byte>)
    requires off + 8 <= buffer.Length && pass.Length == 4 && buffer != pass
    modifies buffer, pass
    ensures View(buffer, off, pass) == EncryptSteps(EIGHT, old(View(buffer, off, pass)), 32)
    ensures Outside(buffer, off)
  {
    hide Encrypt1, EncryptSteps, Mix, Unmix, RotR, RotL;
    ghost var s := View(buffer, off, pass);
    StepsZero(EIGHT, s);
    var passcounter := 0;
    while passcounter < 4
      invariant 0 <= passcounter <= 4
      invariant View(buffer, off, pass) == EncryptSteps(EIGHT, s, 8 * passcounter)
      invariant Outside(buffer, off)
    {
      var bufcounter := 7;
      while bufcounter >= 0
        invariant -1 <= bufcounter <= 7
        invariant View(buffer, off, pass) == EncryptSteps(EIGHT, s, 8 * passcounter + (7 - bufcounter))
        invariant Outside(buffer, off)
      {
        EncryptStep(EIGHT, buffer, off, pass, bufcounter);
        EncryptStepsNext(EIGHT, s, 8 * passcounter + (7 - bufcounter));
        bufcounter := bufcounter - 1;
      }
      passcounter := passcounter + 1;
    }
  }

  method EncryptRoutine(rule: Rule, buffer: array<byte>, off: nat, pass: array<byte>)
    requires off + 8 <= buffer.Length && pass.Length == 4 && buffer != pass
    modifies buffer, pass
    ensures buffer[..] == EncryptAt(rule, old(buffer[..]), off, old(pass[..]))
    ensures pass[..] == old(pass[..])
  {
    hide EncryptSteps, DecryptSteps, Encrypt8, Decrypt8, Patch;
    ghost var s, was := View(buffer, off, pass), buffer[..];
    if rule == EIGHT {
      Encrypt8InPlace(buffer, off, pass);
    } else {
      EncryptA(buffer, off, pass);
    }
    RoutineInverse(rule, s.buf, s.pass);
    Reassemble(was, buffer[..], off, Encrypt8(rule, s.buf, s.pass));
  }

  lemma EncryptStepsNext(rule: Rule, s: State, n: nat)
    requires n < 32
    ensures EncryptSteps(rule, s, n + 1) == Encrypt1(rule, EncryptSteps(rule, s, n), (0x1F - n) % 8)
  {
    hide Encrypt1;
    assert 7 - n % 8 == (0x1F - n) % 8;
  }

  /** gbox_decryptA. */
  method DecryptA(buffer: array<byte>, off: nat, pass: array<byte>)
    requires off + 8 <= buffer.Length && pass.Length == 4 && buffer != pass
    modifies buffer, pass
    ensures View(buffer, off, pass) == DecryptSteps(A, old(View(buffer, off, pass)), 32)
    ensures Outside(buffer, off)
  {
    hide Decrypt1, DecryptSteps, Mix, Unmix, RotR, RotL;
    ghost var s := View(buffer, off, pass);
    StepsZero(A, s);
    var counter := 0;
    while counter <= 0x1F
      invariant 0 <= counter <= 0x20
      invariant View(buffer, off, pass) == DecryptSteps(A, s, counter)
      invariant Outside(buffer, off)
    {
      DecryptStep(A, buffer, off, pass, counter % 8);
      DecryptStepsNext(A, s, counter);
      counter := counter + 1;
    }
  }

  /** gbox_decrypt8. */
  method Decrypt8InPlace(buffer: array<byte>, off: nat, pass: array<byte>)
    requires off + 8 <= buffer.Length && pass.Length == 4 && buffer != pass
    modifies buffer, pass
    ensures View(buffer, off, pass) == DecryptSteps(EIGHT, old(View(buffer, off, pass)), 32)
    ensures Outside(buffer, off)
  {
    hide Decrypt1, DecryptSteps, Mix, Unmix, RotR, RotL;
    ghost var s := View(buffer, off, pass);
    StepsZero(EIGHT, s);
    var passcounter := 3;
    while passcounter >= 0
      invariant -1 <= passcounter <= 3
      invariant View(buffer, off, pass) == DecryptSteps(EIGHT, s, 8 * (3 - passcounter))
      invariant Outside(buffer, off)
    {
      var bufcounter := 0;
      while bufcounter <= 7
        invariant 0 <= bufcounter <= 8
        invariant View(buffer, off, pass) == DecryptSteps(EIGHT, s, 8 * (3 - passcounter) + bufcounter)
        invariant Outside(buffer, off)
      {
        DecryptStep(EIGHT, buffer, off, pass, bufcounter);
        DecryptStepsNext(EIGHT, s, 8 * (3 - passcounter) + bufcounter);
        bufcounter := bufcounter + 1;
      }
      passcounter := passcounter - 1;
    }
  }

  method DecryptRoutine(rule: Rule, buffer: array<byte>, off: nat, pass: array<byte>)
    requires off + 8 <= buffer.Length && pass.Length == 4 && buffer != pass
    modifies buffer, pass
    ensures buffer[..] == DecryptAt(rule, old(buffer[..]), off, old(pass[..]))
    ensures pass[..] == old(pass[..])
  {
    hide EncryptSteps, DecryptSteps, Encrypt8, Decrypt8, Patch;
    ghost var s, was := View(buffer, off, pass), buffer[..];
    if rule == EIGHT {
      Decrypt8InPlace(buffer, off, pass);
    } else {
      DecryptA(buffer, off, pass);
    }
    RoutineInverse(rule, s.buf, s.pass);
    Reassemble(was, buffer[..], off, Decrypt8(rule, s.buf, s.pass));
  }

  lemma DecryptStepsNext(rule: Rule, s: State, n: nat)
    ensures DecryptSteps(rule, s, n + 1) == Decrypt1(rule, DecryptSteps(rule, s, n), n % 8)
  {
  }

  /** gbox_convert_pw. */
  method ConvertPw(password: array<byte>, pw: nat)
    requires password.Length == 4
    modifies password
    ensures password[..] == PasswordOf(pw)
  {
    password[0] := pw / 0x1000000 % 256;
    password[1] := pw / 0x10000 % 256;
    password[2] := pw / 0x100 % 256;
    password[3] := pw % 256;
  }

  method ChainInPlace(buffer: array<byte>, bufsize: nat)
    requires 0 < bufsize <= buffer.Length
    modifies buffer
    ensures buffer[..] == Chain(old(buffer[..]), bufsize)
  {
    hide Xor;
    var counter := 0;
    while counter < bufsize - 1
      invariant 0 <= counter <= bufsize - 1
      invariant forall i :: 0 <= i < counter ==> buffer[i] == Chain(old(buffer[..]), bufsize)[i]
      invariant forall i :: counter <= i < buffer.Length ==> buffer[i] == old(buffer[i])
    {
      buffer[counter] := Xor(buffer[counter + 1], buffer[counter]);
      counter := counter + 1;
    }
  }

  method UnchainInPlace(buffer: array<byte>, bufsize: nat)
    requires 1 < bufsize <= buffer.Length
    modifies buffer
    ensures buffer[..] == Unchain(old(buffer[..]), bufsize, 0)
  {
    hide Xor;
    var counter := bufsize - 2;
    while counter >= 0
      invariant -1 <= counter <= bufsize - 2
      invariant buffer[..] == Unchain(old(buffer[..]), bufsize, counter + 1)
    {
      buffer[counter] := Xor(buffer[counter + 1], buffer[counter]);
      counter := counter - 1;
    }
  }

  /** gbox_encrypt: gbox_encryptA and then gbox_encryptB, under one key. */
  method GboxEncrypt(buffer: array<byte>, bufsize: nat, key: nat)
    requires 9 <= bufsize <= buffer.Length
    modifies buffer
    ensures buffer[..] == EncryptBuffer(old(buffer[..]), bufsize, key)
  {
    hide EncryptAt, DecryptAt, Chain, PasswordOf;
    var pass := new byte[4];
    ConvertPw(pass, key);
    EncryptRoutine(A, buffer, 0, pass);
    ChainInPlace(buffer, bufsize);
    EncryptRoutine(EIGHT, buffer, 0, pass);
    DecryptRoutine(EIGHT, buffer, bufsize - 9, pass);
  }

  /** gbox_decrypt: gbox_decryptB and then gbox_decryptA. */
  method GboxDecrypt(buffer: array<byte>, bufsize: nat, key: nat)
    requires 9 <= bufsize <= buffer.Length
    modifies buffer
    ensures buffer[..] == DecryptBuffer(old(buffer[..]), bufsize, key)
  {
    hide EncryptAt, DecryptAt, Unchain, PasswordOf;
    var pass := new byte[4];
    ConvertPw(pass, key);
    EncryptRoutine(EIGHT, buffer, bufsize - 9, pass);
    DecryptRoutine(EIGHT, buffer, 0, pass);
    UnchainInPlace(buffer, bufsize);
    DecryptRoutine(A, buffer, 0, pass);
  }
}
