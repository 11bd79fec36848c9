/** The CCcam stream cipher (module-cccam.c): an RC4-like table walk whose output is also
    mixed with a `state` byte that accumulates every plaintext byte processed so far. */
module CccamCrypt {

  import opened Bytes

  type Table = t: seq<byte> | |t| == 256 witness seq(256, _ => 0)

  /** Which side of the cipher the data is on: the numbering of cc_crypt_mode_t. */
  datatype Mode = DECRYPT | ENCRYPT

  /** The value of a struct cc_crypt_block. */
  datatype Block = Block(keytable: Table, state: byte, counter: byte, sum: byte)

  function Swap(t: Table, i: byte, j: byte): Table {
    t[i := t[j]][j := t[i]]
  }

  // ----- specification -----

  /** The data-independent half of one step: counter, sum and the table swap. */
  function Turn(b: Block): Block {
    var counter := Add(b.counter, 1);
    var sum := Add(b.sum, b.keytable[counter]);
    Block(Swap(b.keytable, counter, sum), b.state, counter, sum)
  }

  /** The table byte that a turned block contributes to the output. */
  function KeyByte(b: Block): byte {
    b.keytable[Add(b.keytable[b.counter], b.keytable[b.sum])]
  }

  /** The block after one plaintext byte. */
  function Absorb(b: Block, plain: byte): Block {
    var t := Turn(b);
    t.(state := Xor(t.state, plain))
  }

  /** The byte that masks the next data byte. */
  function Mask(b: Block): byte {
    Xor(KeyByte(Turn(b)), b.state)
  }

  /** The block after a whole plaintext. */
  function After(b: Block, plain: seq<byte>): Block
    decreases |plain|
  {
    if plain == [] then b else After(Absorb(b, plain[0]), plain[1..])
  }

  /** The ciphertext of a plaintext. */
  function Cipher(b: Block, plain: seq<byte>): (c: seq<byte>)
    ensures |c| == |plain|
    decreases |plain|
  {
    if plain == [] then [] else [Xor(plain[0], Mask(b))] + Cipher(Absorb(b, plain[0]), plain[1..])
  }

  /** The plaintext of a ciphertext. */
  function Plain(b: Block, cipher: seq<byte>): (p: seq<byte>)
    ensures |p| == |cipher|
    decreases |cipher|
  {
    if cipher == [] then []
    else
      var x := Xor(cipher[0], Mask(b));
      [x] + Plain(Absorb(b, x), cipher[1..])
  }

  /** What cc_crypt leaves in the data buffer. */
  function Crypted(b: Block, data: seq<byte>, mode: Mode): (out: seq<byte>)
    ensures |out| == |data|
  {
    if mode == ENCRYPT then Cipher(b, data) else Plain(b, data)
  }

  /** The plaintext, whichever side of the call it is on. */
  function PlainOf(b: Block, data: seq<byte>, mode: Mode): (p: seq<byte>)
    ensures |p| == |data|
  {
    if mode == ENCRYPT then data else Plain(b, data)
  }

  /** The block after n steps that leave the state alone. */
  function Turns(b: Block, n: nat): Block
    decreases n
  {
    if n == 0 then b else Turns(Turn(b), n - 1)
  }

  function XorAll(s: seq<byte>): byte
    decreases |s|
  {
    if s == [] then 0 else Xor(s[0], XorAll(s[1..]))
  }

  /** Key setup: the table after i swaps, and the running index j. */
  function KeySchedule(key: seq<byte>, i: nat): (r: (Table, byte))
    requires key != [] && i <= 256
  {
    if i == 0 then (seq(256, (k: nat) requires k < 256 => k), 0)
    else
      var (t, j) := KeySchedule(key, i - 1);
      var j' := Add(j, Add(key[(i - 1) % |key|], t[i - 1]));
      (Swap(t, i - 1, j'), j')
  }

  function InitBlock(key: seq<byte>): Block
    requires key != []
  {
    Block(KeySchedule(key, 256).0, key[0], 0, 0)
  }

  // ----- laws of the cipher -----

  /** The table, the counter and the sum depend on the number of bytes alone; the state
      changes by the exclusive or of all plaintext bytes. */
  lemma {:induction false} BlockLaw(b: Block, plain: seq<byte>)
    ensures After(b, plain) == Turns(b, |plain|).(state := Xor(b.state, XorAll(plain)))
    decreases |plain|
  {
    if plain == [] {
      XorZero(b.state);
    } else {
      BlockLaw(Absorb(b, plain[0]), plain[1..]);
      TurnsIgnoreState(Turn(b), Xor(b.state, plain[0]), |plain| - 1);
      XorAssociates(b.state, plain[0], XorAll(plain[1..]));
    }
  }

  lemma {:induction false} TurnsIgnoreState(b: Block, s: byte, n: nat)
    ensures Turns(b.(state := s), n) == Turns(b, n).(state := s)
    decreases n
  {
    if n > 0 {
      TurnsIgnoreState(Turn(b), s, n - 1);
    }
  }

  lemma KeyIgnoresState(b: Block, state: byte)
    ensures KeyByte(b.(state := state)) == KeyByte(b)
  {
  }

  /** Decrypting in the same state undoes encryption. */
  lemma {:induction false} PlainOfCipher(b: Block, plain: seq<byte>)
    ensures Plain(b, Cipher(b, plain)) == plain
    decreases |plain|
  {
    if plain != [] {
      XorTwice(plain[0], Mask(b));
      PlainOfCipher(Absorb(b, plain[0]), plain[1..]);
      assert Cipher(b, plain)[1..] == Cipher(Absorb(b, plain[0]), plain[1..]);
    }
  }

  lemma {:induction false} CipherOfPlain(b: Block, cipher: seq<byte>)
    ensures Cipher(b, Plain(b, cipher)) == cipher
    decreases |cipher|
  {
    if cipher != [] {
      var x := Xor(cipher[0], Mask(b));
      XorTwice(cipher[0], Mask(b));
      CipherOfPlain(Absorb(b, x), cipher[1..]);
      assert Plain(b, cipher)[1..] == Plain(Absorb(b, x), cipher[1..]);
    }
  }

  /** Processing a + b is processing a and then b. */
  lemma {:induction false} Concat(b: Block, x: seq<byte>, y: seq<byte>)
    ensures After(b, x + y) == After(After(b, x), y)
    ensures Cipher(b, x + y) == Cipher(b, x) + Cipher(After(b, x), y)
    decreases |x|
  {
    if x == [] {
      assert x + y == y;
    } else {
      assert (x + y)[1..] == x[1..] + y;
      Concat(Absorb(b, x[0]), x[1..], y);
    }
  }

  /** Decrypting a ciphertext in two pieces (header, then payload) is decrypting it at once. */
  lemma ConcatPlain(b: Block, x: seq<byte>, y: seq<byte>)
    ensures Plain(b, x + y) == Plain(b, x) + Plain(After(b, Plain(b, x)), y)
  {
    var p := Plain(b, x);
    var q := Plain(After(b, p), y);
    CipherOfPlain(b, x);
    CipherOfPlain(After(b, p), y);
    Concat(b, p, q);
    PlainOfCipher(b, p + q);
  }

  // ----- the table stays a permutation -----

  lemma SwapDistinct(t: Table, i: byte, j: byte)
    requires Distinct(t)
    ensures Distinct(Swap(t, i, j))
  {
  }

  lemma {:induction false} KeyScheduleDistinct(key: seq<byte>, i: nat)
    requires key != [] && i <= 256
    ensures Distinct(KeySchedule(key, i).0)
  {
    if i == 0 {
    } else {
      KeyScheduleDistinct(key, i - 1);
      var (t, j) := KeySchedule(key, i - 1);
      SwapDistinct(t, i - 1, Add(j, Add(key[(i - 1) % |key|], t[i - 1])));
    }
  }

  /** Whatever the key and whatever was processed since, the table holds 256 different
      bytes, so the cipher never degenerates. */
  lemma {:induction false} TableAlwaysPermutation(key: seq<byte>, plain: seq<byte>)
    requires key != []
    ensures Distinct(After(InitBlock(key), plain).keytable)
  {
    KeyScheduleDistinct(key, 256);
    AfterDistinct(InitBlock(key), plain);
  }

  lemma {:induction false} AfterDistinct(b: Block, plain: seq<byte>)
    requires Distinct(b.keytable)
    ensures Distinct(After(b, plain).keytable)
    decreases |plain|
  {
    if plain != [] {
      var t := Turn(b);
      SwapDistinct(b.keytable, t.counter, t.sum);
      AfterDistinct(Absorb(b, plain[0]), plain[1..]);
    }
  }

  // ----- the key -----

  lemma KeyStep(key: seq<byte>, i: nat)
    requires key != [] && i < 256
    ensures
      var (t, j) := KeySchedule(key, i);
      var j' := Add(j, Add(key[i % |key|], t[i]));
      KeySchedule(key, i + 1) == (Swap(t, i, j'), j')
  {
  }

  lemma {:induction false} SamePrefix(key: seq<byte>, other: seq<byte>, i: nat)
    requires |key| == |other| > 0 && i <= |key| && i <= 256 && key[..i] == other[..i]
    ensures KeySchedule(key, i) == KeySchedule(other, i)
  {
    if i > 0 {
      assert key[..i - 1] == key[..i][..i - 1] && other[..i - 1] == other[..i][..i - 1];
      SamePrefix(key, other, i - 1);
      KeyStep(key, i - 1);
      KeyStep(other, i - 1);
      InKey(key, i - 1);
      InKey(other, i - 1);
      assert key[i - 1] == key[..i][i - 1] && other[i - 1] == other[..i][i - 1];
    }
  }

  lemma InKey(key: seq<byte>, i: nat)
    requires i < |key|
    ensures key[i % |key|] == key[i]
  {
  }

  /** Every byte of the key counts: where two keys first differ, the running indices part. */
  lemma EveryKeyByteCounts(key: seq<byte>, other: seq<byte>, p: nat)
    requires |key| == |other| && p < |key| && p < 256 && key[..p] == other[..p] && key[p] != other[p]
    ensures KeySchedule(key, p + 1).1 != KeySchedule(other, p + 1).1
  {
    hide KeySchedule, Add;
    SamePrefix(key, other, p);
    KeyStep(key, p);
    KeyStep(other, p);
    InKey(key, p);
    InKey(other, p);
    var (t, j) := KeySchedule(key, p);
    SameSum(t[p], key[p], other[p]);
    SameSum(j, Add(key[p], t[p]), Add(other[p], t[p]));
  }

  lemma SameSum(x: byte, a: byte, b: byte)
    ensures (Add(x, a) == Add(x, b) <==> a == b) && (Add(a, x) == Add(b, x) <==> a == b)
  {
  }

  /** The first three swaps for the key 1, 2: the third uses its first byte again. */
  lemma FirstSwaps()
    ensures KeySchedule([1, 2], 1).1 == 1 && KeySchedule([1, 2], 2).1 == 3 && KeySchedule([1, 2], 3).1 == 6
    ensures KeySchedule([1, 2], 3).0[..7] == [1, 3, 6, 0, 4, 5, 2]
  {
    var t: Table := seq(256, (k: nat) requires k < 256 => k);
    assert KeySchedule([1, 2], 0) == (t, 0);
    KeyStep([1, 2], 0);
    KeyStep([1, 2], 1);
    KeyStep([1, 2], 2);
  }

  /** After keying and any plaintext the counter has counted its bytes, and the state is the first
      byte of the key with all of them. */
  lemma KeyedState(key: seq<byte>, plain: seq<byte>)
    requires key != []
    ensures
      var b := After(InitBlock(key), plain);
      b.counter == |plain| % 256 && b.state == Xor(key[0], XorAll(plain))
  {
    hide KeySchedule, Turns, Xor;
    BlockLaw(InitBlock(key), plain);
    TurnsCount(InitBlock(key), |plain|);
  }

  lemma TurnCounts(b: Block)
    ensures Turn(b).counter as int == (b.counter as int + 1) % 256 && Turn(b).state == b.state
  {
    hide Swap;
  }

  lemma {:induction false} TurnsCount(b: Block, n: nat)
    ensures Turns(b, n).counter as int == (b.counter + n) % 256 && Turns(b, n).state == b.state
    decreases n
  {
    hide Turn;
    if n > 0 {
      TurnCounts(b);
      TurnsCount(Turn(b), n - 1);
      CountOn(b.counter, n - 1);
    }
  }

  lemma CountOn(c: byte, n: nat)
    ensures ((c as int + 1) % 256 + n) % 256 == (c as int + n + 1) % 256
  {
  }

  /** The first three bytes from a block whose table is still in order: each is masked with table
      and state, and the state takes in what was there before. */
  lemma FirstBytes(state: byte, x: byte, y: byte, z: byte)
    ensures Cipher(Block(seq(256, (k: nat) requires k < 256 => k), state, 0, 0), [x, y, z])
         == [Xor(x, Xor(2, state)), Xor(y, Xor(5, Xor(state, x))), Xor(z, Xor(7, Xor(Xor(state, x), y)))]
  {
    hide Xor;
    var b0 := Block(seq(256, (k: nat) requires k < 256 => k), state, 0, 0);
    var b1 := Absorb(b0, x);
    assert Turn(b0).counter == 1 && Turn(b0).sum == 1;
    assert KeyByte(Turn(b0)) == 2;
    var b2 := Absorb(b1, y);
    assert Turn(b1).counter == 2 && Turn(b1).sum == 3;
    assert KeyByte(Turn(b1)) == 5;
    assert Turn(b2).counter == 3 && Turn(b2).sum == 5;
    assert KeyByte(Turn(b2)) == 7;
    assert Cipher(b0, [x, y, z]) == [Xor(x, Mask(b0))] + Cipher(b1, [y, z]);
    assert Cipher(b1, [y, z]) == [Xor(y, Mask(b1))] + Cipher(b2, [z]);
    assert Cipher(b2, [z]) == [Xor(z, Mask(b2))] + Cipher(Absorb(b2, z), []);
  }

  // ----- the program's own form -----

  /** struct cc_crypt_block, updated in place by cc_init_crypt and cc_crypt. */
  class CryptBlock {
    const keytable: array<byte>
    var state: byte
    var counter: byte
    var sum: byte

    ghost predicate Valid()
    {
      keytable.Length == 256
    }

    ghost function Value(): Block
      requires Valid()
      reads this, keytable
    {
      Block(keytable[..], state, counter, sum)
    }

    constructor ()
      ensures Valid() && fresh(keytable)
    {
      keytable := new byte[256];
    }

    /** memcpy of a whole block. */
    method CopyFrom(other: CryptBlock)
      requires Valid() && other.Valid() && other.keytable != keytable
      modifies this, keytable
      ensures Value() == old(other.Value())
    {
      forall k | 0 <= k < 256 {
        keytable[k] := other.keytable[k];
      }
      state, counter, sum := other.state, other.counter, other.sum;
      assert keytable[..] == other.keytable[..];
    }

    method SwapEntries(i: byte, j: byte)
      requires Valid()
      modifies keytable
      ensures keytable[..] == Swap(old(keytable[..]), i, j)
    {
      var p := keytable[i];
      keytable[i] := keytable[j];
      keytable[j] := p;
    }

    method InitCrypt(key: seq<byte>)
      requires Valid() && key != []
      modifies this, keytable
      ensures Value() == InitBlock(key)
    {
      var i := 0;
      while i < 256
        invariant 0 <= i <= 256
        invariant forall k :: 0 <= k < i ==> keytable[k] == k
      {
        keytable[i] := i;
        i := i + 1;
      }
      var j: byte := 0;
      i := 0;
      assert keytable[..] == KeySchedule(key, 0).0;
      while i < 256
        invariant 0 <= i <= 256
        invariant (keytable[..], j) == KeySchedule(key, i)
      {
        j := Add(j, Add(key[i % |key|], keytable[i]));
        SwapEntries(i, j);
        i := i + 1;
      }
      state := key[0];
      counter := 0;
      sum := 0;
    }

    /** One round of the loop: the byte at k is replaced, the block moves on. */
    method CryptByte(data: array<byte>, k: nat, mode: Mode)
      requires Valid() && k < data.Length && data != keytable
      modifies this, keytable, data
      ensures data[..] == old(data[..])[k := Xor(old(data[k]), Mask(old(Value())))]
      ensures Value() == Absorb(old(Value()), if mode == ENCRYPT then old(data[k]) else data[k])
    {
      counter := Add(counter, 1);
      sum := Add(sum, keytable[counter]);
      SwapEntries(counter, sum);
      assert Value() == Turn(old(Value()));
      XorAssociates(data[k], keytable[Add(keytable[counter], keytable[sum])], state);
      var z := data[k];
      data[k] := Xor(z, keytable[Add(keytable[counter], keytable[sum])]);
      data[k] := Xor(data[k], state);
      if mode == DECRYPT {
        z := data[k];
      }
      state := Xor(state, z);
    }

    /** Encrypts or decrypts data[lo..lo + len] in place. */
    method Crypt(data: array<byte>, lo: nat, len: nat, mode: Mode)
      requires Valid() && lo + len <= data.Length && data != keytable
      modifies this, keytable, data
      ensures data[..] == old(data[..lo]) + Crypted(old(Value()), old(data[lo..lo + len]), mode) + old(data[lo + len..])
      ensures Value() == After(old(Value()), PlainOf(old(Value()), old(data[lo..lo + len]), mode))
    {
      hide Crypted, After, PlainOf, Progress;
      ghost var b0, s0 := Value(), data[..];
      ProgressStart(b0, s0, lo, len, mode);
      var i := 0;
      while i < len
        invariant 0 <= i <= len
        invariant Progress(b0, s0, lo, len, i, mode, Value(), data[..])
      {
        ProgressStep(b0, s0, lo, len, i, mode, Value(), data[..]);
        CryptByte(data, lo + i, mode);
        i := i + 1;
      }
      ProgressEnd(b0, s0, lo, len, mode, Value(), data[..]);
    }
  }

  /** The loop invariant of Crypt: i bytes of s0[lo..lo + len] are processed. */
  ghost predicate Progress(b0: Block, s0: seq<byte>, lo: nat, len: nat, i: nat, mode: Mode, b: Block, s: seq<byte>)
    requires i <= len && lo + len <= |s0|
  {
    && s == s0[..lo] + Crypted(b0, s0[lo..lo + i], mode) + s0[lo + i..]
    && b == After(b0, PlainOf(b0, s0[lo..lo + i], mode))
  }

  lemma ProgressStart(b0: Block, s0: seq<byte>, lo: nat, len: nat, mode: Mode)
    requires lo + len <= |s0|
    ensures Progress(b0, s0, lo, len, 0, mode, b0, s0)
  {
    assert s0[lo..lo] == [];
    assert s0 == s0[..lo] + [] + s0[lo..];
  }

  lemma ProgressEnd(b0: Block, s0: seq<byte>, lo: nat, len: nat, mode: Mode, b: Block, s: seq<byte>)
    requires lo + len <= |s0| && Progress(b0, s0, lo, len, len, mode, b, s)
    ensures s == s0[..lo] + Crypted(b0, s0[lo..lo + len], mode) + s0[lo + len..]
    ensures b == After(b0, PlainOf(b0, s0[lo..lo + len], mode))
  {
  }

  lemma ProgressStep(b0: Block, s0: seq<byte>, lo: nat, len: nat, i: nat, mode: Mode, b: Block, s: seq<byte>)
    requires i < len && lo + len <= |s0| && Progress(b0, s0, lo, len, i, mode, b, s)
    ensures |s| == |s0|
    ensures
      var x := Xor(s[lo + i], Mask(b));
      Progress(b0, s0, lo, len, i + 1, mode, Absorb(b, if mode == ENCRYPT then s[lo + i] else x), s[lo + i := x])
  {
    var input := s0[lo..lo + len];
    assert s0[lo..lo + i] == input[..i] && s0[lo..lo + i + 1] == input[..i + 1];
    CryptedSnoc(b0, input, i, mode);
    Splice(s0, lo, i, Crypted(b0, input[..i], mode), Xor(s[lo + i], Mask(b)));
  }

  lemma Splice(s: seq<byte>, lo: nat, i: nat, out: seq<byte>, x: byte)
    requires lo + i < |s| && |out| == i
    ensures (s[..lo] + out + s[lo + i..])[lo + i] == s[lo + i]
    ensures (s[..lo] + out + s[lo + i..])[lo + i := x] == s[..lo] + (out + [x]) + s[lo + i + 1..]
  {
  }

  /** How the specification grows by the byte at i. */
  lemma CryptedSnoc(b: Block, data: seq<byte>, i: nat, mode: Mode)
    requires i < |data|
    ensures
      var m := After(b, PlainOf(b, data[..i], mode));
      var out := Xor(data[i], Mask(m));
      && Crypted(b, data[..i + 1], mode) == Crypted(b, data[..i], mode) + [out]
      && After(b, PlainOf(b, data[..i + 1], mode)) == Absorb(m, if mode == ENCRYPT then data[i] else out)
  {
    assert data[..i + 1] == data[..i] + [data[i]];
    if mode == ENCRYPT {
      Concat(b, data[..i], [data[i]]);
    } else {
      ConcatPlain(b, data[..i], [data[i]]);
      var p := Plain(b, data[..i]);
      Concat(b, p, [Xor(data[i], Mask(After(b, p)))]);
    }
  }
}
