/** The two word ciphers of CCcam that are their own inverse (module-cccam.c): cc_cw_crypt, which
    mixes a control word with node and card identifiers, and cc_rc4_crypt, the walk of cc_crypt
    without the state in its output. */
module CwScramble {
  import opened Bytes
  import opened CccamCrypt

  type Word = w: seq<byte> | |w| == 16 witness [0, 0, 0, 0, 0, 0, 0, 0, 0, 0, 0, 0, 0, 0, 0, 0]

  // ----- cc_cw_crypt -----

  /** n >> k. */
  function Shift(n: nat, k: nat): nat
    decreases k
  {
    if k == 0 then n else Shift(n / 2, k - 1)
  }

  function LowByte(n: nat): byte { n % 0x100 }

  /** The order of the program: node bits, complement of odd places, card bits. */
  function Scrambled(x: byte, node: nat, card: nat, i: nat): byte {
    var tmp := Xor(x, LowByte(Shift(node, 4 * i)));
    Xor(LowByte(Shift(card, 2 * i)), if i % 2 == 1 then 0xFF - tmp else tmp)
  }

  function Scramble(w: Word, node: nat, card: nat): Word {
    seq(16, (i: nat) requires i < 16 => Scrambled(w[i], node, card, i))
  }

  function NodeByte(node: nat, i: nat): byte { LowByte(Shift(node, 4 * i)) }

  /** ~x is x with all bits exchanged. */
  lemma {:induction false} Complement(n: nat, x: nat)
    requires x < Pow2(n)
    ensures XorNat(x, Pow2(n) - 1) == Pow2(n) - 1 - x
  {
    if n > 0 {
      Complement(n - 1, x / 2);
      assert (Pow2(n) - 1) / 2 == Pow2(n - 1) - 1;
      XorParts(x, Pow2(n) - 1);
    }
  }

  lemma ComplementByte(x: byte)
    ensures 0xFF - x == Xor(x, 0xFF)
  {
    assert Pow2(8) == 256;
    Complement(8, x);
  }

  /** A byte goes through two scramblings with the same card unchanged exactly if both used the
      same node bits. */
  lemma ByteTwice(x: byte, a: nat, b: nat, card: nat, i: nat)
    ensures Scrambled(Scrambled(x, a, card, i), b, card, i) == x <==> NodeByte(a, i) == NodeByte(b, i)
  {
    hide Xor, Shift;
    var p, q, c := NodeByte(a, i), NodeByte(b, i), LowByte(Shift(card, 2 * i));
    var m: byte := if i % 2 == 1 then 0xFF else 0;
    MaskForm(x, a, card, i);
    var y := Scrambled(x, a, card, i);
    MaskForm(y, b, card, i);
    TwiceCancels(x, p, q, c, m);
    XorInjective(x, p, q);
  }

  /** Scrambling is one mask. */
  lemma MaskForm(x: byte, node: nat, card: nat, i: nat)
    ensures
      var m: byte := if i % 2 == 1 then 0xFF else 0;
      Scrambled(x, node, card, i) == Xor(Xor(Xor(x, NodeByte(node, i)), m), LowByte(Shift(card, 2 * i)))
  {
    hide Xor, Shift;
    var tmp := Xor(x, NodeByte(node, i));
    ComplementByte(tmp);
    XorZero(tmp);
    var m: byte := if i % 2 == 1 then 0xFF else 0;
    XorCommutes(LowByte(Shift(card, 2 * i)), Xor(tmp, m));
  }

  lemma TwiceCancels(x: byte, p: byte, q: byte, c: byte, m: byte)
    ensures Xor(Xor(Xor(Xor(Xor(Xor(x, p), m), c), q), m), c) == Xor(Xor(x, p), q)
  {
    hide Xor;
    var u := Xor(x, p);
    Swapped(Xor(u, m), c, q);
    Swapped(Xor(Xor(u, m), q), c, m);
    XorTwice(Xor(Xor(Xor(u, m), q), m), c);
    Swapped(u, m, q);
    XorTwice(Xor(u, q), m);
  }

  lemma Swapped(x: byte, a: byte, b: byte)
    ensures Xor(Xor(x, a), b) == Xor(Xor(x, b), a)
  {
    hide Xor;
    XorAssociates(x, a, b);
    XorAssociates(x, b, a);
    XorCommutes(a, b);
  }

  lemma XorInjective(x: byte, p: byte, q: byte)
    ensures Xor(Xor(x, p), q) == x <==> p == q
  {
    hide Xor;
    XorTwice(x, p);
    XorAssociates(x, p, q);
    if Xor(Xor(x, p), q) == x {
      XorCommutes(x, Xor(p, q));
      XorTwice(Xor(p, q), x);
      XorCommutes(x, x);
      XorSameIff(x, x);
      XorTwice(p, q);
      XorCommutes(0, q);
      XorZero(q);
    }
  }

  lemma {:induction false} ShiftAdd(n: nat, j: nat, k: nat)
    ensures Shift(n, j + k) == Shift(Shift(n, j), k)
    decreases j
  {
    if j > 0 {
      ShiftAdd(n / 2, j - 1, k);
    }
  }

  lemma {:induction false} ShiftOut(n: nat, k: nat)
    requires n < Pow2(k)
    ensures Shift(n, k) == 0
    decreases k
  {
    if k > 0 {
      ShiftOut(n / 2, k - 1);
    }
  }

  lemma ShiftByte(n: nat)
    ensures n == 0x100 * Shift(n, 8) + LowByte(n)
  {
    assert Shift(n, 8) == n / 2 / 2 / 2 / 2 / 2 / 2 / 2 / 2;
    assert n / 2 / 2 / 2 / 2 == n / 16;
    assert n / 16 / 2 / 2 / 2 / 2 == n / 256;
  }

  /** A number is determined by its bytes. */
  lemma {:induction false} SameBytes(a: nat, b: nat, k: nat)
    requires forall i :: 0 <= i < k ==> LowByte(Shift(a, 8 * i)) == LowByte(Shift(b, 8 * i))
    requires Shift(a, 8 * k) == Shift(b, 8 * k)
    ensures a == b
    decreases k
  {
    hide LowByte, Shift;
    if k > 0 {
      ShiftAdd(a, 8 * (k - 1), 8);
      ShiftAdd(b, 8 * (k - 1), 8);
      ShiftByte(Shift(a, 8 * (k - 1)));
      ShiftByte(Shift(b, 8 * (k - 1)));
      assert LowByte(Shift(a, 8 * (k - 1))) == LowByte(Shift(b, 8 * (k - 1)));
      SameBytes(a, b, k - 1);
    } else {
      assert Shift(a, 0) == a && Shift(b, 0) == b by { ShiftNone(a); ShiftNone(b); }
    }
  }

  lemma ShiftNone(n: nat)
    ensures Shift(n, 0) == n
  {
  }

  /** What the server scrambles with its peer's node id, the reader unscrambles with its own:
      the control word comes back exactly if the two 64-bit identifiers are the same. */
  lemma WordBackIff(w: Word, a: nat, b: nat, card: nat)
    requires a < Pow2(64) && b < Pow2(64)
    ensures Scramble(Scramble(w, a, card), b, card) == w <==> a == b
  {
    hide Scrambled, NodeByte, Pow2;
    var r := Scramble(Scramble(w, a, card), b, card);
    forall i | 0 <= i < 16
      ensures r[i] == w[i] <==> NodeByte(a, i) == NodeByte(b, i)
    {
      ByteTwice(w[i], a, b, card, i);
    }
    if r == w {
      forall i | 0 <= i < 8
        ensures LowByte(Shift(a, 8 * i)) == LowByte(Shift(b, 8 * i))
      {
        assert r[2 * i] == w[2 * i];
        EvenPlace(a, i);
        EvenPlace(b, i);
      }
      ShiftOut(a, 64);
      ShiftOut(b, 64);
      SameBytes(a, b, 8);
    }
  }

  lemma EvenPlace(n: nat, i: nat)
    ensures NodeByte(n, 2 * i) == LowByte(Shift(n, 8 * i))
  {
  }

  /** The bits that are shifted out. */
  function ShiftedOut(n: nat, k: nat): nat
    decreases k
  {
    if k == 0 then 0 else 2 * ShiftedOut(n / 2, k - 1) + n % 2
  }

  lemma {:induction false} ShiftIsQuotient(n: nat, k: nat)
    ensures n == Shift(n, k) * Pow2(k) + ShiftedOut(n, k) && ShiftedOut(n, k) < Pow2(k)
    decreases k
  {
    if k > 0 {
      ShiftIsQuotient(n / 2, k - 1);
      Regrouped(Shift(n, k), Pow2(k - 1));
    }
  }

  lemma Regrouped(q: nat, p: nat)
    ensures q * (2 * p) == 2 * (q * p)
  {
  }

  /** Place i is masked with the quotient of the node by 16 to the i, with that of the card by 4 to the i,
      and in odd places with all bits. */
  lemma Masked(w: Word, node: nat, card: nat, i: nat)
    requires i < 16
    ensures
      var n, c := Shift(node, 4 * i), Shift(card, 2 * i);
      && n * Pow2(4 * i) <= node < n * Pow2(4 * i) + Pow2(4 * i)
      && c * Pow2(2 * i) <= card < c * Pow2(2 * i) + Pow2(2 * i)
      && Scramble(w, node, card)[i] == Xor(Xor(Xor(w[i], n % 256), if i % 2 == 1 then 0xFF else 0), c % 256)
  {
    hide Xor, Shift, ShiftedOut, Pow2;
    ShiftIsQuotient(node, 4 * i);
    ShiftIsQuotient(card, 2 * i);
    MaskForm(w[i], node, card, i);
  }

  /** cc_cw_crypt, in place. */
  method CwCrypt(cws: array<byte>, node: nat, card: nat)
    requires cws.Length == 16
    modifies cws
    ensures cws[..] == Scramble(old(cws[..]), node, card)
  {
    hide Xor, Shift;
    var i := 0;
    while i < 16
      invariant 0 <= i <= 16
      invariant forall k :: 0 <= k < i ==> cws[k] == Scrambled(old(cws[k]), node, card, k)
      invariant forall k :: i <= k < 16 ==> cws[k] == old(cws[k])
    {
      var tmp := Xor(cws[i], LowByte(Shift(node, 4 * i)));
      if i % 2 == 1 {
        tmp := 0xFF - tmp;
      }
      cws[i] := Xor(LowByte(Shift(card, 2 * i)), tmp);
      i := i + 1;
    }
  }

  // ----- cc_rc4_crypt -----

  /** What is left in the buffer: every byte masked by the table alone. */
  function Rc4(b: Block, data: seq<byte>): (r: seq<byte>)
    ensures |r| == |data|
    decreases |data|
  {
    if data == [] then [] else [Xor(data[0], KeyByte(Turn(b)))] + Rc4(Turn(b), data[1..])
  }

  /** Walking twice from the same table, counter and sum gives the data back, whatever the
      states and the modes were. */
  lemma {:induction false} Rc4Twice(b: Block, c: Block, data: seq<byte>)
    requires c == b.(state := c.state)
    ensures Rc4(c, Rc4(b, data)) == data
    decreases |data|
  {
    hide Xor;
    if data != [] {
      var r := Rc4(b, data);
      XorTwice(data[0], KeyByte(Turn(b)));
      assert r[1..] == Rc4(Turn(b), data[1..]);
      Rc4Twice(Turn(b), Turn(c), data[1..]);
    }
  }

  /** The first three mask bytes from a table that is still in order. */
  lemma Rc4Known(state: byte)
    ensures Rc4(Block(seq(256, (k: nat) requires k < 256 => k), state, 0, 0), [0, 0, 0]) == [2, 5, 7]
  {
    hide Xor;
    var b0 := Block(seq(256, (k: nat) requires k < 256 => k), state, 0, 0);
    var b1 := Turn(b0);
    var b2 := Turn(b1);
    assert b1.counter == 1 && b1.sum == 1 && KeyByte(b1) == 2;
    assert b2.counter == 2 && b2.sum == 3 && KeyByte(b2) == 5;
    assert Turn(b2).counter == 3 && Turn(b2).sum == 5 && KeyByte(Turn(b2)) == 7;
    XorCommutes(0, 2);
    XorCommutes(0, 5);
    XorCommutes(0, 7);
    XorZero(2);
    XorZero(5);
    XorZero(7);
    assert [0, 0, 0][1..] == [0, 0] && [0, 0][1..] == [0] && [0][1..] == [];
    assert Rc4(b2, [0]) == [Xor(0, KeyByte(Turn(b2)))] + Rc4(Turn(b2), []);
    assert Rc4(b1, [0, 0]) == [Xor(0, KeyByte(b2))] + Rc4(b2, [0]);
    assert Rc4(b0, [0, 0, 0]) == [Xor(0, KeyByte(b1))] + Rc4(b1, [0, 0]);
  }

  lemma {:induction false} Rc4Snoc(b: Block, data: seq<byte>, x: byte)
    ensures Rc4(b, data + [x]) == Rc4(b, data) + [Xor(x, KeyByte(Turn(Turns(b, |data|))))]
    decreases |data|
  {
    hide Xor, KeyByte, Turn;
    if data == [] {
      assert data + [x] == [x];
      assert [x][1..] == [];
      assert Rc4(Turn(b), []) == [];
    } else {
      assert (data + [x])[1..] == data[1..] + [x];
      Rc4Snoc(Turn(b), data[1..], x);
    }
  }

  lemma {:induction false} TurnsSnoc(b: Block, n: nat)
    ensures Turns(b, n + 1) == Turn(Turns(b, n))
    decreases n
  {
    hide Turn;
    if n > 0 {
      TurnsSnoc(Turn(b), n - 1);
    } else {
      assert Turns(b, 1) == Turns(Turn(b), 0);
    }
  }

  lemma TurnIgnoresState(b: Block, s: byte)
    ensures Turn(b.(state := s)) == Turn(b).(state := s)
  {
  }

  /** One round: swap, mask, and the plaintext goes into the state. */
  method Rc4Byte(block: CryptBlock, data: array<byte>, i: nat, mode: Mode)
    requires block.Valid() && i < data.Length && data != block.keytable
    modifies block, block.keytable, data
    ensures data[..] == old(data[..])[i := Xor(old(data[i]), KeyByte(Turn(old(block.Value()))))]
    ensures block.Value() == Turn(old(block.Value())).(state := Xor(old(block.state), if mode == ENCRYPT then old(data[i]) else data[i]))
  {
    hide Xor;
    block.counter := Add(block.counter, 1);
    block.sum := Add(block.sum, block.keytable[block.counter]);
    block.SwapEntries(block.counter, block.sum);
    assert block.Value() == Turn(old(block.Value()));
    var z := data[i];
    data[i] := Xor(z, block.keytable[Add(block.keytable[block.counter], block.keytable[block.sum])]);
    if mode == DECRYPT {
      z := data[i];
    }
    block.state := Xor(block.state, z);
  }

  /** The plaintext, whichever side of the call it is on. */
  function Rc4Plain(b: Block, data: seq<byte>, mode: Mode): (p: seq<byte>)
    ensures |p| == |data|
  {
    if mode == ENCRYPT then data else Rc4(b, data)
  }

  lemma {:induction false} XorAllSnoc(s: seq<byte>, x: byte)
    ensures XorAll(s + [x]) == Xor(XorAll(s), x)
    decreases |s|
  {
    hide Xor;
    if s == [] {
      assert s + [x] == [x];
      assert [x][1..] == [];
      assert XorAll([x]) == Xor(x, XorAll([])) == Xor(x, 0);
      XorCommutes(x, 0);
    } else {
      assert (s + [x])[1..] == s[1..] + [x];
      XorAllSnoc(s[1..], x);
      XorAssociates(s[0], XorAll(s[1..]), x);
    }
  }

  /** cc_rc4_crypt on a whole buffer. */
  method Rc4Crypt(block: CryptBlock, data: array<byte>, mode: Mode)
    requires block.Valid() && data != block.keytable
    modifies block, block.keytable, data
    ensures data[..] == Rc4(old(block.Value()), old(data[..]))
    ensures
      var plain := Rc4Plain(old(block.Value()), old(data[..]), mode);
      block.Value() == Turns(old(block.Value()), data.Length).(state := Xor(old(block.state), XorAll(plain)))
  {
    hide Rc4, Turn, KeyByte, Xor, Turns, XorAll;
    ghost var b0, d0 := block.Value(), data[..];
    NoTurns(b0);
    var i := 0;
    assert d0[..0] == [];
    while i < data.Length
      invariant 0 <= i <= data.Length && block.Valid()
      invariant block.Value() == Turns(b0, i).(state := Xor(b0.state, XorAll(Rc4Plain(b0, d0[..i], mode))))
      invariant data[..] == Rc4(b0, d0[..i]) + d0[i..]
    {
      Rc4Step(b0, d0, i, mode, block.Value(), data[..]);
      Rc4Byte(block, data, i, mode);
      i := i + 1;
    }
    assert d0[..data.Length] == d0;
  }

  lemma {:induction false} Rc4Step(b0: Block, d0: seq<byte>, i: nat, mode: Mode, b: Block, s: seq<byte>)
    requires i < |d0| && s == Rc4(b0, d0[..i]) + d0[i..]
    requires b == Turns(b0, i).(state := Xor(b0.state, XorAll(Rc4Plain(b0, d0[..i], mode))))
    ensures
      var out := Xor(s[i], KeyByte(Turn(b)));
      && s[i] == d0[i] && s[i := out] == Rc4(b0, d0[..i + 1]) + d0[i + 1..]
      && Turn(b).(state := Xor(b.state, if mode == ENCRYPT then s[i] else out))
         == Turns(b0, i + 1).(state := Xor(b0.state, XorAll(Rc4Plain(b0, d0[..i + 1], mode))))
  {
    hide Rc4, Turn, KeyByte, Xor, Turns, XorAll;
    TurnsSnoc(b0, i);
    TurnIgnoresState(Turns(b0, i), b.state);
    assert d0[..i + 1] == d0[..i] + [d0[i]];
    Rc4Snoc(b0, d0[..i], d0[i]);
    assert s[i] == d0[i];
    KeyIgnoresState(Turn(Turns(b0, i)), b.state);
    var out := Xor(s[i], KeyByte(Turn(b)));
    var z := if mode == ENCRYPT then s[i] else out;
    var before := Rc4Plain(b0, d0[..i], mode);
    assert Rc4Plain(b0, d0[..i + 1], mode) == before + [z];
    XorAllSnoc(before, z);
    XorAssociates(b0.state, XorAll(before), z);
  }

  lemma NoTurns(b: Block)
    ensures Turns(b, 0) == b && Rc4(b, []) == [] && Xor(b.state, XorAll([])) == b.state
  {
    XorZero(b.state);
  }

}
