/** Eight-bit arithmetic as the C sources use it: every value wraps at 256. */
module Bytes {

  type byte = x: int | 0 <= x < 256

  function Add(x: byte, y: byte): byte { (x + y) % 256 }

  function Sub(x: byte, y: byte): byte { (x - y) % 256 }

  function Pow2(n: nat): nat { if n == 0 then 1 else 2 * Pow2(n - 1) }

  /** Bitwise exclusive or. */
  function XorNat(x: nat, y: nat): nat
    decreases x + y
  {
    if x == 0 && y == 0 then 0 else (x + y) % 2 + 2 * XorNat(x / 2, y / 2)
  }

  function Xor(x: byte, y: byte): byte {
    assert Pow2(8) == 256;
    XorBound(8, x, y);
    XorNat(x, y)
  }

  lemma {:induction false} XorBound(n: nat, x: nat, y: nat)
    requires x < Pow2(n) && y < Pow2(n)
    ensures XorNat(x, y) < Pow2(n)
  {
    if n > 0 {
      XorBound(n - 1, x / 2, y / 2);
    }
  }

  lemma {:induction false} XorParts(x: nat, y: nat)
    ensures XorNat(x, y) % 2 == (x + y) % 2
    ensures XorNat(x, y) / 2 == XorNat(x / 2, y / 2)
  {
    var k := XorNat(x / 2, y / 2);
    assert XorNat(x, y) == (x + y) % 2 + 2 * k;
    BitAndRest((x + y) % 2, k);
  }

  lemma BitAndRest(bit: nat, k: nat)
    requires bit < 2
    ensures (bit + 2 * k) % 2 == bit && (bit + 2 * k) / 2 == k
  {
  }

  lemma {:induction false} XorNatTwice(x: nat, m: nat)
    ensures XorNat(XorNat(x, m), m) == x
    decreases x + m
  {
    if x + m > 0 {
      XorNatTwice(x / 2, m / 2);
      var r := XorNat(x, m);
      XorParts(x, m);
      XorParts(r, m);
      ParityTwice(x, m, r);
    }
  }

  lemma {:induction false} XorNatCommutes(x: nat, y: nat)
    ensures XorNat(x, y) == XorNat(y, x)
    decreases x + y
  {
    if x + y > 0 {
      XorNatCommutes(x / 2, y / 2);
    }
  }

  lemma {:induction false} XorNatAssociates(x: nat, y: nat, z: nat)
    ensures XorNat(XorNat(x, y), z) == XorNat(x, XorNat(y, z))
    decreases x + y + z
  {
    if x + y + z > 0 {
      XorNatAssociates(x / 2, y / 2, z / 2);
      var l, r := XorNat(x, y), XorNat(y, z);
      XorParts(x, y);
      XorParts(y, z);
      XorParts(l, z);
      XorParts(x, r);
      ParityAssociates(x, y, z, l, r);
    }
  }

  lemma ParityTwice(x: nat, m: nat, r: nat)
    requires r % 2 == (x + m) % 2
    ensures (r + m) % 2 == x % 2
  {
  }

  lemma ParityAssociates(x: nat, y: nat, z: nat, l: nat, r: nat)
    requires l % 2 == (x + y) % 2 && r % 2 == (y + z) % 2
    ensures (l + z) % 2 == (x + r) % 2
  {
  }

  /** Masking twice with the same byte gives the byte back. */
  lemma XorTwice(x: byte, m: byte)
    ensures Xor(Xor(x, m), m) == x
  {
    XorNatTwice(x, m);
  }

  lemma XorCommutes(x: byte, y: byte)
    ensures Xor(x, y) == Xor(y, x)
  {
    XorNatCommutes(x, y);
  }

  lemma XorAssociates(x: byte, y: byte, z: byte)
    ensures Xor(Xor(x, y), z) == Xor(x, Xor(y, z))
  {
    XorNatAssociates(x, y, z);
  }

  lemma XorZero(x: byte)
    ensures Xor(x, 0) == x
  {
    XorTwice(x, 0);
    XorAssociates(x, 0, 0);
  }

  lemma XorSameIff(x: byte, y: byte)
    ensures Xor(x, y) == 0 <==> x == y
  {
    hide Xor;
    XorTwice(x, y);
    XorCommutes(0, y);
    XorZero(y);
    XorZero(0);
    XorTwice(0, x);
    XorCommutes(0, x);
    XorZero(x);
  }

  /** Bitwise and. */
  function And(x: nat, y: nat): nat
    decreases x
  {
    if x == 0 then 0 else (if x % 2 == 1 && y % 2 == 1 then 1 else 0) + 2 * And(x / 2, y / 2)
  }

  /** All bits below a bound let every smaller number through. */
  lemma {:induction false} AndAllOnes(x: nat, n: nat)
    requires x < Pow2(n)
    ensures And(x, Pow2(n) - 1) == x
  {
    if x > 0 {
      AndAllOnes(x / 2, n - 1);
      var m := Pow2(n - 1) - 1;
      assert Pow2(n) - 1 == 2 * m + 1;
      assert (2 * m + 1) / 2 == m && (2 * m + 1) % 2 == 1;
    }
  }

  function Zeros(n: nat): (s: seq<byte>)
    ensures |s| == n
  {
    seq(n, _ => 0)
  }

  predicate Distinct<T(==)>(s: seq<T>) { forall i, j :: 0 <= i < j < |s| ==> s[i] != s[j] }

  // ----- big-endian numbers: i2b_buf and b2i -----

  function Be2(n: nat): (s: seq<byte>)
    ensures |s| == 2
  {
    var hi: byte, lo: byte := n / 0x100 % 256, n % 256;
    [hi, lo]
  }

  function Be3(n: nat): (s: seq<byte>)
    ensures |s| == 3
  {
    var lo: byte := n % 256;
    Be2(n / 256) + [lo]
  }

  function Be4(n: nat): (s: seq<byte>)
    ensures |s| == 4
  {
    var lo: byte := n % 256;
    Be3(n / 256) + [lo]
  }

  function FromBe(s: seq<byte>): nat
    decreases |s|
  {
    if s == [] then 0 else FromBe(s[..|s| - 1]) * 256 + s[|s| - 1]
  }

  lemma FromBeSnoc(s: seq<byte>, x: byte)
    ensures FromBe(s + [x]) == FromBe(s) * 256 + x
  {
    assert (s + [x])[..|s|] == s;
  }

  lemma FromBe2(n: nat)
    ensures FromBe(Be2(n)) == n % 0x10000
  {
    hide FromBe;
    var hi: byte, lo: byte := n / 0x100 % 256, n % 256;
    assert n / 0x100 == n / 0x10000 * 0x100 + hi;
    FromBeSnoc([], hi);
    FromBeSnoc([hi], lo);
    FromBeEmpty();
    assert [] + [hi] == [hi] && [hi] + [lo] == Be2(n);
  }

  lemma FromBeEmpty()
    ensures FromBe([]) == 0
  {
  }

  lemma FromBe3(n: nat)
    ensures FromBe(Be3(n)) == n % 0x1000000
  {
    hide FromBe, Be2;
    FromBe2(n / 256);
    FromBeSnoc(Be2(n / 256), n % 256);
  }

  lemma FromBe4(n: nat)
    ensures FromBe(Be4(n)) == n % 0x100000000
  {
    hide FromBe, Be3;
    FromBe3(n / 256);
    FromBeSnoc(Be3(n / 256), n % 256);
  }

  /** The high byte comes first. */
  lemma HighByteFirst()
    ensures Be2(0x0102) == [1, 2] && Be3(0x010203) == [1, 2, 3] && Be4(0x01020304) == [1, 2, 3, 4]
    ensures FromBe([1, 2, 3, 4]) == 0x01020304
  {
    assert Be4(0x01020304) == [1, 2, 3, 4];
    FromBe4(0x01020304);
  }

  /** Bit k of a number. */
  function Bit(x: nat, k: nat): nat
    decreases k
  {
    if k == 0 then x % 2 else Bit(x / 2, k - 1)
  }

  /** The exclusive or has the bits in which the numbers differ. */
  lemma {:induction false} XorBits(x: nat, y: nat, k: nat)
    ensures Bit(XorNat(x, y), k) == if Bit(x, k) == Bit(y, k) then 0 else 1
    decreases k
  {
    XorParts(x, y);
    if k > 0 {
      XorBits(x / 2, y / 2, k - 1);
    }
  }

  /** And the bits that both have. */
  lemma {:induction false} AndBits(x: nat, y: nat, k: nat)
    ensures Bit(And(x, y), k) == Bit(x, k) * Bit(y, k)
    decreases k
  {
    if x == 0 {
      ZeroBits(k);
    } else if k > 0 {
      AndBits(x / 2, y / 2, k - 1);
    }
  }

  lemma {:induction false} ZeroBits(k: nat)
    ensures Bit(0, k) == 0
    decreases k
  {
    if k > 0 {
      ZeroBits(k - 1);
    }
  }
}
