// Bytes, big-endian integers and bitwise exclusive or.
module Bytes {
  type Byte = b: int | 0 <= b < 256

  function Pow256(width: nat): nat {
    if width == 0 then 1 else 256 * Pow256(width - 1)
  }

  // struct.pack(">H", n) is Pack(n, 2) and struct.pack(">Q", n) is Pack(n, 8).
  function Pack(n: nat, width: nat): (s: seq<Byte>)
    ensures |s| == width
  {
    if width == 0 then [] else Pack(n / 256, width - 1) + [n % 256]
  }

  function Unpack(s: seq<Byte>): (n: nat)
    ensures n < Pow256(|s|)
  {
    if s == [] then 0 else 256 * Unpack(s[..|s|-1]) + s[|s|-1]
  }

  lemma {:induction false} UnpackPack(n: nat, width: nat)
    requires n < Pow256(width)
    ensures Unpack(Pack(n, width)) == n
  {
    if width > 0 {
      UnpackPack(n / 256, width - 1);
      assert Pack(n, width)[..width-1] == Pack(n / 256, width - 1);
    }
  }

  lemma PowersOf256()
    ensures Pow256(2) == 0x1_0000
    ensures Pow256(8) == 0x1_0000_0000_0000_0000
  {
    assert Pow256(4) == 0x1_0000_0000;
  }

  // The two widths that are used, most significant byte first.
  lemma PackIsBigEndian(n: nat)
    ensures n <= 0xFFFF ==> Pack(n, 2) == [n / 0x100, n % 0x100]
    ensures n < 0x1_0000_0000_0000_0000 ==> Pack(n, 8) == BigEndian8(n)
  {
    if n <= 0xFFFF { PackTwo(n); }
    if n < 0x1_0000_0000_0000_0000 { PackEight(n); }
  }

  lemma PackEight(n: nat)
    requires n < 0x1_0000_0000_0000_0000
    ensures Pack(n, 8) == BigEndian8(n)
  {
    var high := n / 0x1_0000_0000;
    PackFour(n, 8);
    PackFour(high, 4);
    HighBytes(n, high);
    SmallByte(n / 0x100_0000_0000_0000);
    var low := [n / 0x100_0000 % 0x100, n / 0x1_0000 % 0x100, n / 0x100 % 0x100, n % 0x100];
    assert Pack(high, 4) == [n / 0x100_0000_0000_0000, n / 0x1_0000_0000_0000 % 0x100, n / 0x100_0000_0000 % 0x100, high % 0x100];
    assert Pack(n, 8) == Pack(high, 4) + low;
  }

  lemma SmallByte(n: nat)
    requires n < 0x100
    ensures n % 0x100 == n
  {
  }

  lemma HighBytes(n: nat, high: nat)
    requires high == n / 0x1_0000_0000
    ensures high / 0x100_0000 == n / 0x100_0000_0000_0000 && high / 0x1_0000 == n / 0x1_0000_0000_0000
    ensures high / 0x100 == n / 0x100_0000_0000
  {
  }

  function BigEndian8(n: nat): seq<Byte>
    requires n < 0x1_0000_0000_0000_0000
  {
    [n / 0x100_0000_0000_0000, n / 0x1_0000_0000_0000 % 0x100, n / 0x100_0000_0000 % 0x100, n / 0x1_0000_0000 % 0x100,
     n / 0x100_0000 % 0x100, n / 0x1_0000 % 0x100, n / 0x100 % 0x100, n % 0x100]
  }

  lemma PackTwo(n: nat)
    requires n <= 0xFFFF
    ensures Pack(n, 2) == [n / 0x100, n % 0x100]
  {
    assert Pack(n / 0x100, 1) == [n / 0x100 % 0x100];
  }

  // The last four bytes.
  lemma PackFour(n: nat, width: nat)
    requires width >= 4
    ensures Pack(n, width) == Pack(n / 0x1_0000_0000, width - 4)
              + [n / 0x100_0000 % 0x100, n / 0x1_0000 % 0x100, n / 0x100 % 0x100, n % 0x100]
  {
    var a, b, c := n / 0x100, n / 0x1_0000, n / 0x100_0000;
    assert a / 0x100 == b && b / 0x100 == c && c / 0x100 == n / 0x1_0000_0000;
    assert Pack(c, width - 3) == Pack(n / 0x1_0000_0000, width - 4) + [c % 0x100];
    assert Pack(b, width - 2) == Pack(c, width - 3) + [b % 0x100];
    assert Pack(a, width - 1) == Pack(b, width - 2) + [a % 0x100];
  }

  function Pow2(n: nat): nat {
    if n == 0 then 1 else 2 * Pow2(n - 1)
  }

  // Exclusive or of the low `bits` binary digits.
  function XorBits(a: nat, b: nat, bits: nat): (r: nat)
    ensures r < Pow2(bits)
  {
    if bits == 0 then 0
    else 2 * XorBits(a / 2, b / 2, bits - 1) + if a % 2 == b % 2 then 0 else 1
  }

  lemma {:induction false} XorBitsCancels(a: nat, b: nat, bits: nat)
    requires a < Pow2(bits)
    ensures XorBits(XorBits(a, b, bits), b, bits) == a
  {
    if bits > 0 {
      XorBitsCancels(a / 2, b / 2, bits - 1);
      var r := XorBits(a, b, bits);
      assert r / 2 == XorBits(a / 2, b / 2, bits - 1);
    }
  }

  function Xor(a: Byte, b: Byte): Byte {
    PowerOf2();
    XorBits(a, b, 8)
  }

  // The binary digit number i.
  function Bit(n: nat, i: nat): nat { if i == 0 then n % 2 else Bit(n / 2, i - 1) }

  lemma {:induction false} XorBit(a: nat, b: nat, bits: nat, i: nat)
    requires i < bits
    ensures Bit(XorBits(a, b, bits), i) == (Bit(a, i) + Bit(b, i)) % 2
  {
    var r := XorBits(a, b, bits);
    assert r / 2 == XorBits(a / 2, b / 2, bits - 1);
    if i > 0 { XorBit(a / 2, b / 2, bits - 1, i - 1); }
  }

  // The digits make up the number.
  lemma Digits(n: Byte)
    ensures n == Bit(n, 0) + 2 * Bit(n, 1) + 4 * Bit(n, 2) + 8 * Bit(n, 3)
              + 16 * Bit(n, 4) + 32 * Bit(n, 5) + 64 * Bit(n, 6) + 128 * Bit(n, 7)
    ensures forall i :: 0 <= i < 8 ==> Bit(n, i) in {0, 1}
  {
    FourDigits(n);
    FourDigits(n / 16);
    assert n / 16 / 16 == 0;
    forall i: nat | i < 8 ensures Bit(n, i) in {0, 1} { BitIsBinary(n, i); }
  }

  lemma FourDigits(n: nat)
    ensures n == Bit(n, 0) + 2 * Bit(n, 1) + 4 * Bit(n, 2) + 8 * Bit(n, 3) + 16 * (n / 16)
    ensures forall i: nat :: Bit(n, i + 4) == Bit(n / 16, i)
  {
    var a, b, c, d := n / 2, n / 4, n / 8, n / 16;
    assert a / 2 == b && b / 2 == c && c / 2 == d;
    forall i: nat ensures Bit(n, i + 4) == Bit(d, i) {
      assert Bit(n, i + 4) == Bit(a, i + 3);
      assert Bit(a, i + 3) == Bit(b, i + 2);
      assert Bit(b, i + 2) == Bit(c, i + 1);
      assert Bit(c, i + 1) == Bit(d, i);
    }
    assert Bit(n, 1) == Bit(a, 0);
    assert Bit(n, 2) == Bit(a, 1) == Bit(b, 0);
    assert Bit(n, 3) == Bit(a, 2) == Bit(b, 1) == Bit(c, 0);
  }

  lemma {:induction false} BitIsBinary(n: nat, i: nat)
    ensures Bit(n, i) in {0, 1}
  {
    if i > 0 { BitIsBinary(n / 2, i - 1); }
  }

  // Each of the eight digits of r is that of a, flipped where b has a one.
  predicate Flips(r: Byte, a: Byte, b: Byte) {
    forall i :: 0 <= i < 8 ==> Bit(r, i) == if Bit(b, i) == 1 then 1 - Bit(a, i) else Bit(a, i)
  }

  // Only one byte is the other with these digits flipped.
  lemma FlipsOnlyOne(r: Byte, q: Byte, a: Byte, b: Byte)
    requires Flips(r, a, b) && Flips(q, a, b)
    ensures r == q
  {
    Digits(r);
    Digits(q);
    forall i | 0 <= i < 8 ensures Bit(r, i) == Bit(q, i) { assert Bit(r, i) == if Bit(b, i) == 1 then 1 - Bit(a, i) else Bit(a, i); }
  }

  // Xor is exclusive or.
  lemma XorFlips(a: Byte, b: Byte)
    ensures Flips(Xor(a, b), a, b)
  {
    forall i: nat | i < 8 ensures Bit(Xor(a, b), i) == if Bit(b, i) == 1 then 1 - Bit(a, i) else Bit(a, i) {
      XorBit(a, b, 8, i);
      BitIsBinary(a, i);
      BitIsBinary(b, i);
    }
  }

  lemma PowerOf2()
    ensures Pow2(8) == 256
  {
    assert Pow2(4) == 16;
  }

  lemma XorCancels(a: Byte, b: Byte)
    ensures Xor(Xor(a, b), b) == a
  {
    PowerOf2();
    XorBitsCancels(a, b, 8);
  }
}
