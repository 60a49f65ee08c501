/** hash_uint of hashmap.c on 32-bit unsigned integers. */
module UIntHash {

  type UInt = x: int | 0 <= x < 0x1_0000_0000

  /** `^` on unsigned integers, bit by bit. */
  function Xor(a: nat, b: nat): nat {
    if a == 0 && b == 0 then 0 else 2 * Xor(a / 2, b / 2) + (a + b) % 2
  }

  /** `(x >> 16) ^ x`. */
  function Fold(x: nat): nat {
    Xor(x / 0x1_0000, x)
  }

  /** `x * 0x45d9f3b` on 32-bit unsigned integers. */
  function Scale(x: nat): nat {
    x * 0x45d9f3b % 0x1_0000_0000
  }

  /** hash_uint. */
  function HashUInt(key: UInt): nat {
    Fold(Scale(Fold(Scale(Fold(key)))))
  }

  // ---------- different keys hash differently ----------

  // One bit, two bits and four bits at a time.
  lemma XorBit(a: nat, b: nat, r: nat, t: nat)
    requires r < 2 && t < 2
    ensures Xor(2 * a + r, 2 * b + t) == 2 * Xor(a, b) + (r + t) % 2
  {
    assert (2 * a + r) / 2 == a && (2 * b + t) / 2 == b;
  }

  lemma {:induction false} XorBack(a: nat, b: nat)
    ensures Xor(a, Xor(a, b)) == b
    decreases a + b
  {
    hide Xor;
    var r, t := a % 2, b % 2;
    assert a == 2 * (a / 2) + r && b == 2 * (b / 2) + t;
    if a == 0 && b == 0 {
      XorZero(0);
    } else {
      XorBack(a / 2, b / 2);
      XorBit(a / 2, b / 2, r, t);
      XorBit(a / 2, Xor(a / 2, b / 2), r, (r + t) % 2);
      assert (r + (r + t) % 2) % 2 == t;
    }
  }

  lemma {:induction false} XorZero(b: nat)
    ensures Xor(0, b) == b
  {
    if b != 0 {
      XorZero(b / 2);
    }
  }

  // The operation goes along with shifts to the right.
  lemma XorHalf(a: nat, b: nat)
    ensures Xor(a, b) / 2 == Xor(a / 2, b / 2)
  {
  }

  lemma XorShift2(a: nat, b: nat)
    ensures Xor(a, b) / 4 == Xor(a / 4, b / 4)
  {
    hide *;
    XorHalf(a, b);
    XorHalf(a / 2, b / 2);
    assert a / 2 / 2 == a / 4 && b / 2 / 2 == b / 4;
  }

  lemma XorShift4(a: nat, b: nat)
    ensures Xor(a, b) / 16 == Xor(a / 16, b / 16)
  {
    hide *;
    XorShift2(a, b);
    XorShift2(a / 4, b / 4);
    assert a / 4 / 4 == a / 16 && b / 4 / 4 == b / 16;
  }

  lemma XorShift8(a: nat, b: nat)
    ensures Xor(a, b) / 256 == Xor(a / 256, b / 256)
  {
    hide *;
    XorShift4(a, b);
    XorShift4(a / 16, b / 16);
    assert a / 16 / 16 == a / 256 && b / 16 / 16 == b / 256;
  }

  lemma XorShift16(a: nat, b: nat)
    ensures Xor(a, b) / 0x1_0000 == Xor(a / 0x1_0000, b / 0x1_0000)
  {
    hide *;
    XorShift8(a, b);
    XorShift8(a / 256, b / 256);
    assert a / 256 / 256 == a / 0x1_0000 && b / 256 / 256 == b / 0x1_0000;
  }

  lemma FoldTwice(x: nat)
    requires x < 0x1_0000_0000
    ensures Fold(Fold(x)) == x && Fold(x) < 0x1_0000_0000
  {
    hide Xor;
    var h := x / 0x1_0000;
    XorShift16(h, x);
    assert h / 0x1_0000 == 0;
    XorZero(h);
    assert Fold(x) / 0x1_0000 == h;
    XorBack(h, x);
  }

  /** Undoes `Scale`: the two factors are inverse to each other modulo 2^32. */
  function Unscale(x: nat): nat {
    x * 0x119de1f3 % 0x1_0000_0000
  }

  lemma Wraps(x: nat, t: int)
    requires x < 0x1_0000_0000
    ensures (x + 0x1_0000_0000 * t) % 0x1_0000_0000 == x
  {
  }

  lemma ScaleBack(x: nat)
    requires x < 0x1_0000_0000
    ensures Unscale(Scale(x)) == x && Scale(x) < 0x1_0000_0000
  {
    var q := x * 0x45d9f3b / 0x1_0000_0000;
    assert Scale(x) == x * 0x45d9f3b - q * 0x1_0000_0000;
    var t := x * 0x4ce8d8 - q * 0x119de1f3;
    assert Scale(x) * 0x119de1f3 == x + 0x1_0000_0000 * t;
    Wraps(x, t);
  }

  function Unhash(hash: nat): nat {
    Fold(Unscale(Fold(Unscale(Fold(hash)))))
  }

  /** The key can be recovered from its hash, which is a 32-bit number. */
  lemma HashBack(key: UInt)
    ensures HashUInt(key) < 0x1_0000_0000 && Unhash(HashUInt(key)) == key
  {
    hide Fold, Scale, Unscale;
    FoldTwice(key);
    ScaleBack(Fold(key));
    var a := Scale(Fold(key));
    FoldTwice(a);
    ScaleBack(Fold(a));
    FoldTwice(Scale(Fold(a)));
  }

  lemma HashesApart(a: UInt, b: UInt)
    requires HashUInt(a) == HashUInt(b)
    ensures a == b
  {
    hide *;
    HashBack(a);
    HashBack(b);
  }

  // ---------- one value in full ----------

  /** `^` on two bits. */
  function Xor4(r: nat, t: nat): nat {
    if r == t then 0 else if r == 0 then t else if t == 0 then r else if r + t < 6 then 6 - r - t else 0
  }

  lemma XorTwoBits(a: nat, b: nat, r: nat, t: nat)
    requires r < 4 && t < 4
    ensures Xor(4 * a + r, 4 * b + t) == 4 * Xor(a, b) + Xor4(r, t)
  {
    hide Xor;
    XorBit(a, b, r / 2, t / 2);
    XorBit(2 * a + r / 2, 2 * b + t / 2, r % 2, t % 2);
  }

  /** One hexadecimal digit more on each side. */
  lemma XorDigit(a: nat, b: nat, r: nat, t: nat)
    requires r < 16 && t < 16
    ensures Xor(16 * a + r, 16 * b + t) == 16 * Xor(a, b) + XorOfDigits(r, t)
  {
    hide Xor, Xor4;
    XorTwoBits(a, b, r / 4, t / 4);
    XorTwoBits(4 * a + r / 4, 4 * b + t / 4, r % 4, t % 4);
  }

  function XorOfDigits(r: nat, t: nat): nat {
    4 * Xor4(r / 4, t / 4) + Xor4(r % 4, t % 4)
  }

  lemma FirstDigits()
    ensures XorOfDigits(0x1, 0x7) == 0x6 && XorOfDigits(0x1, 0xc) == 0xd
    ensures XorOfDigits(0x7, 0xe) == 0x9 && XorOfDigits(0x6, 0xc) == 0xa
  {
  }

  lemma SecondDigits()
    ensures XorOfDigits(0xc, 0xe) == 0x2 && XorOfDigits(0xd, 0x8) == 0x5
    ensures XorOfDigits(0x4, 0x7) == 0x3 && XorOfDigits(0xf, 0xe) == 0x1
  {
  }

  lemma FirstFold()
    ensures Fold(0x11767cec) == 0x11766d9a
  {
    hide Xor, XorOfDigits;
    XorZero(0x1176);
    XorDigit(0x0, 0x1176, 0x1, 0x7);
    XorDigit(0x1, 0x11767, 0x1, 0xc);
    XorDigit(0x11, 0x11767c, 0x7, 0xe);
    XorDigit(0x117, 0x11767ce, 0x6, 0xc);
    FirstDigits();
  }

  lemma SecondFold()
    ensures Fold(0xcd4fe87e) == 0xcd4f2531
  {
    hide Xor, XorOfDigits;
    XorZero(0xcd4f);
    XorDigit(0x0, 0xcd4f, 0xc, 0xe);
    XorDigit(0xc, 0xcd4fe, 0xd, 0x8);
    XorDigit(0xcd, 0xcd4fe8, 0x4, 0x7);
    XorDigit(0xcd4, 0xcd4fe87, 0xf, 0xe);
    SecondDigits();
  }

  lemma SmallFold(x: nat)
    requires x < 0x1_0000
    ensures Fold(x) == x
  {
    XorZero(x);
  }

  /** The hash of descriptor 4, in numbers. */
  lemma HashOfFour()
    ensures HashUInt(4) == 3444516145
  {
    hide Xor, Fold;
    SmallFold(4);
    assert Scale(4) == 0x11767cec;
    FirstFold();
    assert Scale(0x11766d9a) == 0xcd4fe87e;
    SecondFold();
  }
}
