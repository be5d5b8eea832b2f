/** Bytes, 32-bit words and their bit operations, as arithmetic on integers.

    C's unsigned operators are written out: a sum wraps modulo 2^32, `>> n` is a division and
    `<< n` a multiplication modulo 2^32. `&`, `|` and `^` are defined bit by bit, so that what
    they do to every single bit can be stated and proved. */
module Words {

  type Byte = b: int | 0 <= b < 0x100

  type Word = w: int | 0 <= w < 0x1_0000_0000

  function Min(x: int, y: int): int {
    if x < y then x else y
  }

  function Pow2(n: nat): (p: nat)
    ensures p >= 1
  {
    if n == 0 then 1 else 2 * Pow2(n - 1)
  }

  /** Bit number `k` of `x`, the least significant bit being number 0. */
  function Bit(x: nat, k: nat): (b: nat)
    ensures b < 2
  {
    if k == 0 then x % 2 else Bit(x / 2, k - 1)
  }

  function And(x: nat, y: nat): (r: nat)
    ensures r <= x && r <= y
  {
    if x == 0 || y == 0 then 0 else 2 * And(x / 2, y / 2) + (if x % 2 == 1 && y % 2 == 1 then 1 else 0)
  }

  function Or(x: nat, y: nat): nat {
    if x == 0 then y else 2 * Or(x / 2, y / 2) + (if x % 2 == 1 || y % 2 == 1 then 1 else 0)
  }

  function Xor(x: nat, y: nat): nat
    decreases x + y
  {
    if x == 0 && y == 0 then 0 else 2 * Xor(x / 2, y / 2) + (if x % 2 == y % 2 then 0 else 1)
  }

  lemma {:induction false} BitOfAnd(x: nat, y: nat, k: nat)
    ensures Bit(And(x, y), k) == if Bit(x, k) == 1 && Bit(y, k) == 1 then 1 else 0
  {
    if x == 0 {
      BitOfZero(k);
    } else if y == 0 {
      BitOfZero(k);
    } else if k > 0 {
      BitOfAnd(x / 2, y / 2, k - 1);
    }
  }

  lemma {:induction false} BitOfOr(x: nat, y: nat, k: nat)
    ensures Bit(Or(x, y), k) == if Bit(x, k) == 1 || Bit(y, k) == 1 then 1 else 0
  {
    if x == 0 {
      BitOfZero(k);
    } else if k > 0 {
      BitOfOr(x / 2, y / 2, k - 1);
    }
  }

  lemma {:induction false} BitOfXor(x: nat, y: nat, k: nat)
    ensures Bit(Xor(x, y), k) == if Bit(x, k) == Bit(y, k) then 0 else 1
  {
    if x == 0 && y == 0 {
      BitOfZero(k);
    } else if k > 0 {
      BitOfXor(x / 2, y / 2, k - 1);
    }
  }

  lemma {:induction false} BitOfZero(k: nat)
    ensures Bit(0, k) == 0
  {
    if k > 0 {
      BitOfZero(k - 1);
    }
  }

  /** Subtracting from 2^n - 1 flips the low `n` bits. */
  lemma {:induction false} BitOfComplement(x: nat, n: nat, k: nat)
    requires x < Pow2(n) && k < n
    ensures Bit(Pow2(n) - 1 - x, k) == 1 - Bit(x, k)
  {
    var p := Pow2(n - 1);
    assert Pow2(n) == 2 * p;
    if k > 0 {
      assert (2 * p - 1 - x) / 2 == p - 1 - x / 2;
      BitOfComplement(x / 2, n - 1, k - 1);
    }
  }

  /** The bit operations stay within any number of bits that holds both operands. */
  lemma {:induction false} OrXorBound(x: nat, y: nat, n: nat)
    requires x < Pow2(n) && y < Pow2(n)
    ensures Or(x, y) < Pow2(n) && Xor(x, y) < Pow2(n)
  {
    if n > 0 {
      OrXorBound(x / 2, y / 2, n - 1);
    }
  }

  /** Numbers with the same low `n` bits, and no others, are equal. */
  lemma {:induction false} SameBits(x: nat, y: nat, n: nat)
    requires x < Pow2(n) && y < Pow2(n)
    requires forall k :: 0 <= k < n ==> Bit(x, k) == Bit(y, k)
    ensures x == y
  {
    if n > 0 {
      assert Bit(x, 0) == Bit(y, 0);
      forall k | 0 <= k < n - 1
        ensures Bit(x / 2, k) == Bit(y / 2, k)
      {
        assert Bit(x, k + 1) == Bit(y, k + 1);
      }
      SameBits(x / 2, y / 2, n - 1);
    }
  }

  lemma XorParts(x: nat, y: nat)
    ensures Xor(x, y) / 2 == Xor(x / 2, y / 2)
    ensures Xor(x, y) % 2 == if x % 2 == y % 2 then 0 else 1
  {
  }

  /** Exclusive or with the same mask twice gives the number back. */
  lemma {:induction false} XorTwice(x: nat, mask: nat)
    ensures Xor(Xor(x, mask), mask) == x
    decreases x + mask
  {
    if x > 0 || mask > 0 {
      var z := Xor(x, mask);
      XorParts(x, mask);
      XorParts(z, mask);
      XorTwice(x / 2, mask / 2);
    }
  }

  lemma {:induction false} XorZeroRight(x: nat)
    ensures Xor(x, 0) == x
  {
    if x != 0 {
      XorZeroRight(x / 2);
    }
  }

  /** Exclusive or with n ones subtracts from them. */
  lemma {:induction false} XorOnes(x: nat, n: nat)
    requires x < Pow2(n)
    ensures Xor(x, Pow2(n) - 1) == Pow2(n) - 1 - x
  {
    if n > 0 {
      var p := Pow2(n - 1);
      XorOnes(x / 2, n - 1);
      XorParts(x, 2 * p - 1);
      assert (2 * p - 1) / 2 == p - 1 && (2 * p - 1) % 2 == 1;
    }
  }

  /** A bit above both operands, in the number or in the mask, is kept. */
  lemma {:induction false} XorHighBit(x: nat, mask: nat, n: nat)
    requires x < Pow2(n) && mask < Pow2(n)
    ensures Xor(x + Pow2(n), mask) == Xor(x, mask) + Pow2(n)
    ensures Xor(x, mask + Pow2(n)) == Xor(x, mask) + Pow2(n)
  {
    hide Xor;
    if n == 0 {
      XorOne();
    } else {
      var p := Pow2(n - 1);
      XorHighBit(x / 2, mask / 2, n - 1);
      XorHighBitStep(x, mask, p);
    }
  }

  lemma XorOne()
    ensures Xor(0, 0) == 0 && Xor(1, 0) == 1 && Xor(0, 1) == 1
  {
    XorParts(1, 0);
    XorParts(0, 1);
  }

  lemma XorHighBitStep(x: nat, mask: nat, p: nat)
    requires Xor(x / 2 + p, mask / 2) == Xor(x / 2, mask / 2) + p
    requires Xor(x / 2, mask / 2 + p) == Xor(x / 2, mask / 2) + p
    ensures Xor(x + 2 * p, mask) == Xor(x, mask) + 2 * p
    ensures Xor(x, mask + 2 * p) == Xor(x, mask) + 2 * p
  {
    hide Xor;
    XorParts(x + 2 * p, mask);
    XorParts(x, mask + 2 * p);
    XorParts(x, mask);
    EvenAdded(x, p);
    EvenAdded(mask, p);
  }

  lemma EvenAdded(x: nat, p: nat)
    ensures (x + 2 * p) / 2 == x / 2 + p && (x + 2 * p) % 2 == x % 2
  {
  }

  /** Where no bits meet, `|` is a sum. */
  lemma {:induction false} OrOfDisjoint(high: nat, low: nat, n: nat)
    requires low < Pow2(n)
    ensures Or(high * Pow2(n), low) == high * Pow2(n) + low
  {
    if high == 0 {
    } else if n == 0 {
      OrZeroRight(high);
    } else {
      var p := Pow2(n - 1);
      assert high * Pow2(n) == 2 * (high * p);
      assert high * p != 0;
      OrOfDisjoint(high, low / 2, n - 1);
    }
  }

  lemma {:induction false} OrZeroRight(x: nat)
    ensures Or(x, 0) == x
  {
    if x != 0 {
      OrZeroRight(x / 2);
    }
  }

  lemma {:induction false} OrCommutative(x: nat, y: nat)
    ensures Or(x, y) == Or(y, x)
  {
    if x == 0 {
      OrZeroRight(y);
    } else if y == 0 {
      OrZeroRight(x);
    } else {
      OrCommutative(x / 2, y / 2);
    }
  }

  lemma {:induction false} Pow2Sum(m: nat, n: nat)
    ensures Pow2(m + n) == Pow2(m) * Pow2(n)
  {
    if m > 0 {
      Pow2Sum(m - 1, n);
      DoubledProduct(Pow2(m - 1), Pow2(n));
    }
  }

  lemma DoubledProduct(p: int, q: int)
    ensures 2 * p * q == 2 * (p * q)
  {
  }

  lemma Pow2Of32()
    ensures Pow2(32) == 0x1_0000_0000
  {
    assert Pow2(8) == 0x100;
    Pow2Sum(8, 8);
    Pow2Sum(16, 16);
  }

  /** `t << n` on an int that does not overflow. */
  function Doubled(t: int, n: nat): int
    decreases n
  {
    if n == 0 then t else Doubled(2 * t, n - 1)
  }

  /** `x >> n`. */
  function Halved(x: int, n: nat): int
    decreases n
  {
    if n == 0 then x else Halved(x / 2, n - 1)
  }

  lemma {:induction false} DoubledIsProduct(t: int, n: nat)
    ensures Doubled(t, n) == t * Pow2(n)
    decreases n
  {
    if n > 0 {
      DoubledIsProduct(2 * t, n - 1);
      DoubledProduct(t, Pow2(n - 1));
      DoubledProduct(Pow2(n - 1), t);
    }
  }

  lemma {:induction false} HalvedIsQuotient(x: nat, n: nat)
    ensures Halved(x, n) == x / Pow2(n)
    decreases n
  {
    if n > 0 {
      HalvedIsQuotient(x / 2, n - 1);
      QuotientOfQuotient(x, Pow2(n - 1));
    }
  }

  lemma QuotientOfQuotient(x: nat, p: nat)
    requires p > 0
    ensures x / 2 / p == x / (2 * p)
  {
    var h := x / 2;
    assert x == 2 * (p * (h / p) + h % p) + x % 2;
    assert 2 * (p * (h / p)) == 2 * p * (h / p);
    DivModUnique(x, 2 * p, h / p, 2 * (h % p) + x % 2);
  }

  lemma ProductMonotone(x: nat, y: nat, z: nat)
    requires y <= z
    ensures x * y <= x * z
  {
  }

  lemma MultipleIsFar(d: int, k: int)
    requires d > 0
    ensures k >= 1 ==> d * k >= d
    ensures k <= -1 ==> d * k <= -d
  {
  }

  lemma DivModUnique(x: int, d: int, q: int, r: int)
    requires 0 <= r < d && x == d * q + r
    ensures x / d == q && x % d == r
  {
    assert x == d * (x / d) + x % d;
    MultipleIsFar(d, x / d - q);
    assert d * (x / d - q) == d * (x / d) - d * q;
  }

  /** A term may be wrapped to 32 bits before it is added. */
  lemma WrapTerm(a: int, y: int)
    ensures (a + y % 0x1_0000_0000) % 0x1_0000_0000 == (a + y) % 0x1_0000_0000
  {
    var z := a + y % 0x1_0000_0000;
    DivModUnique(a + y, 0x1_0000_0000, y / 0x1_0000_0000 + z / 0x1_0000_0000, z % 0x1_0000_0000);
  }
}
