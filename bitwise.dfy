/** Python's `^` on non-negative integers, the operation the Zobrist hash is
    built from, with the algebra the hashing arguments need. */
module Bitwise {

  /** `2 ** k`. */
  function Pow2(k: nat): (p: nat)
    ensures p >= 1
  {
    if k == 0 then 1 else 2 * Pow2(k - 1)
  }

  lemma {:induction false} Pow2Add(j: nat, k: nat)
    ensures Pow2(j + k) == Pow2(j) * Pow2(k)
    decreases j
  {
    if j > 0 {
      Pow2Add(j - 1, k);
    }
  }

  /** The bound of a 64-bit value. */
  const WordLimit: nat := 0x1_0000_0000_0000_0000

  lemma Pow2Of64()
    ensures Pow2(64) == WordLimit
  {
    assert Pow2(2) == 4;
    Pow2Add(2, 2);
    assert Pow2(4) == 16;
    Pow2Add(4, 4);
    assert Pow2(8) == 256;
    Pow2Add(8, 8);
    assert Pow2(16) == 0x1_0000;
    Pow2Add(16, 16);
    assert Pow2(32) == 0x1_0000_0000;
    Pow2Add(32, 32);
  }

  /** A value `random.getrandbits(64)` can return. */
  type Word = n: nat | n < WordLimit

  /** The lowest binary digit of `a ^ b`. */
  function XorBit(a: nat, b: nat): nat {
    if a % 2 == b % 2 then 0 else 1
  }

  /** Python's `a ^ b` on non-negative integers, one binary digit at a time. */
  function Xor(a: nat, b: nat): nat
    decreases a + b
  {
    if a == 0 then b
    else if b == 0 then a
    else 2 * Xor(a / 2, b / 2) + XorBit(a, b)
  }

  lemma Halves(n: nat, half: nat, bit: nat)
    requires bit < 2 && n == 2 * half + bit
    ensures n / 2 == half && n % 2 == bit
  {
  }

  /** The digits of `a ^ b`: the lowest is `XorBit`, the rest are the XOR of
      the rest. */
  lemma XorDigits(a: nat, b: nat)
    ensures Xor(a, b) % 2 == XorBit(a, b)
    ensures Xor(a, b) / 2 == Xor(a / 2, b / 2)
  {
    if a == 0 {
      assert a / 2 == 0;
    } else if b == 0 {
      assert b / 2 == 0;
    } else {
      Halves(Xor(a, b), Xor(a / 2, b / 2), XorBit(a, b));
    }
  }

  lemma {:induction false} XorCommutes(a: nat, b: nat)
    ensures Xor(a, b) == Xor(b, a)
    decreases a + b
  {
    if a != 0 && b != 0 {
      XorCommutes(a / 2, b / 2);
    }
  }

  lemma {:induction false} XorAssociates(a: nat, b: nat, c: nat)
    ensures Xor(Xor(a, b), c) == Xor(a, Xor(b, c))
    decreases a + b + c
  {
    if a + b + c != 0 {
      var l := Xor(Xor(a, b), c);
      var r := Xor(a, Xor(b, c));
      XorDigits(a, b);
      XorDigits(Xor(a, b), c);
      XorDigits(b, c);
      XorDigits(a, Xor(b, c));
      XorAssociates(a / 2, b / 2, c / 2);
      assert l / 2 == r / 2;
      assert l % 2 == r % 2;
      assert l == 2 * (l / 2) + l % 2;
      assert r == 2 * (r / 2) + r % 2;
    }
  }

  /** Either of two values XORed into a third can go in last. */
  lemma XorSwap(x: nat, a: nat, b: nat)
    ensures Xor(Xor(x, a), b) == Xor(Xor(x, b), a)
  {
    XorAssociates(x, a, b);
    XorCommutes(a, b);
    XorAssociates(x, b, a);
  }

  lemma {:induction false} XorSelf(a: nat)
    ensures Xor(a, a) == 0
    decreases a
  {
    if a != 0 {
      XorSelf(a / 2);
    }
  }

  lemma {:induction false} XorBelow(a: nat, b: nat, k: nat)
    requires a < Pow2(k) && b < Pow2(k)
    ensures Xor(a, b) < Pow2(k)
    decreases k
  {
    if a != 0 && b != 0 {
      XorBelow(a / 2, b / 2, k - 1);
    }
  }

  /** The XOR of two 64-bit values is a 64-bit value. */
  lemma XorWord(a: nat, b: nat)
    requires a < WordLimit && b < WordLimit
    ensures Xor(a, b) < WordLimit
  {
    Pow2Of64();
    XorBelow(a, b, 64);
  }
}
