/** The auxiliary functions of RFC 1321 byte by byte, on the bit operations that are built in. */
module Md5Bytes {
  import opened Words
  import opened Md5Spec

  /** A word as its four bytes, low-order byte first. */
  datatype Four = Four(b0: bv8, b1: bv8, b2: bv8, b3: bv8)

  function Number(x: bv8): (n: nat)
    ensures n < 0x100
  {
    x as int
  }

  function Value(w: Four): Word {
    w.b0 as int + 0x100 * (w.b1 as int) + 0x1_0000 * (w.b2 as int) + 0x100_0000 * (w.b3 as int)
  }

  function High3(w: Four): (v: nat)
    ensures v < 0x100_0000
  {
    Number(w.b1) + 0x100 * High2(w)
  }

  function High2(w: Four): (v: nat)
    ensures v < 0x1_0000
  {
    Number(w.b2) + 0x100 * Number(w.b3)
  }

  function Both(x: bv8, y: bv8): bv8 {
    x & y
  }

  function Either(x: bv8, y: bv8): bv8 {
    x | y
  }

  function OneOf(x: bv8, y: bv8): bv8 {
    x ^ y
  }

  function Flipped(x: bv8): bv8 {
    !x
  }

  function Half(x: bv8): bv8 {
    x >> 1
  }

  predicate IsOdd(x: bv8) {
    x & 1 == 1
  }

  lemma PartsOfByte(x: bv8)
    ensures Number(Half(x)) == Number(x) / 2 && (IsOdd(x) <==> Number(x) % 2 == 1)
  {
    assert (x >> 1) as int == (x as int) / 2 && (x & 1) as int == (x as int) % 2;
  }

  lemma BothParts(x: bv8, y: bv8)
    ensures Half(Both(x, y)) == Both(Half(x), Half(y)) && (IsOdd(Both(x, y)) <==> IsOdd(x) && IsOdd(y))
  {
  }

  lemma EitherParts(x: bv8, y: bv8)
    ensures Half(Either(x, y)) == Either(Half(x), Half(y)) && (IsOdd(Either(x, y)) <==> IsOdd(x) || IsOdd(y))
  {
  }

  lemma OneOfParts(x: bv8, y: bv8)
    ensures Half(OneOf(x, y)) == OneOf(Half(x), Half(y)) && (IsOdd(OneOf(x, y)) <==> IsOdd(x) != IsOdd(y))
  {
  }

  lemma ZeroBytes(x: bv8, y: bv8)
    requires Number(x) == 0 && Number(y) == 0
    ensures Number(Both(x, y)) == 0 && Number(Either(x, y)) == 0 && Number(OneOf(x, y)) == 0
  {
    assert x == 0 && y == 0;
  }

  lemma FlippedIsComplement(x: bv8)
    ensures Number(Flipped(x)) == 0xFF - Number(x)
  {
  }

  /** The operations on bytes are those on numbers. */
  lemma {:induction false} AndOfBytes(x: bv8, y: bv8, n: nat)
    requires Number(x) < Pow2(n) && Number(y) < Pow2(n)
    ensures And(Number(x), Number(y)) == Number(Both(x, y))
    decreases n
  {
    hide Number, Half, IsOdd, Both;
    if n == 0 {
      ZeroBytes(x, y);
    } else {
      BothParts(x, y);
      PartsOfByte(x);
      PartsOfByte(y);
      PartsOfByte(Both(x, y));
      AndOfBytes(Half(x), Half(y), n - 1);
      AndParts(Number(x), Number(y));
    }
  }

  lemma {:induction false} OrOfBytes(x: bv8, y: bv8, n: nat)
    requires Number(x) < Pow2(n) && Number(y) < Pow2(n)
    ensures Or(Number(x), Number(y)) == Number(Either(x, y))
    decreases n
  {
    hide Number, Half, IsOdd, Either;
    if n == 0 {
      ZeroBytes(x, y);
    } else {
      EitherParts(x, y);
      PartsOfByte(x);
      PartsOfByte(y);
      PartsOfByte(Either(x, y));
      OrOfBytes(Half(x), Half(y), n - 1);
      OrParts(Number(x), Number(y));
    }
  }

  lemma {:induction false} XorOfBytes(x: bv8, y: bv8, n: nat)
    requires Number(x) < Pow2(n) && Number(y) < Pow2(n)
    ensures Xor(Number(x), Number(y)) == Number(OneOf(x, y))
    decreases n
  {
    hide Number, Half, IsOdd, OneOf;
    if n == 0 {
      ZeroBytes(x, y);
    } else {
      OneOfParts(x, y);
      PartsOfByte(x);
      PartsOfByte(y);
      PartsOfByte(OneOf(x, y));
      XorOfBytes(Half(x), Half(y), n - 1);
      XorParts(Number(x), Number(y));
    }
  }

  lemma AndParts(x: nat, y: nat)
    ensures And(x, y) / 2 == And(x / 2, y / 2)
    ensures And(x, y) % 2 == if x % 2 == 1 && y % 2 == 1 then 1 else 0
  {
  }

  lemma OrParts(x: nat, y: nat)
    ensures Or(x, y) / 2 == Or(x / 2, y / 2)
    ensures Or(x, y) % 2 == if x % 2 == 1 || y % 2 == 1 then 1 else 0
  {
  }

  /** Low bits and high bits are operated on apart. */
  lemma {:induction false} Joined(n: nat, l: nat, h: nat, m: nat, k: nat)
    requires l < Pow2(n) && m < Pow2(n)
    ensures And(l + Pow2(n) * h, m + Pow2(n) * k) == And(l, m) + Pow2(n) * And(h, k)
    ensures Or(l + Pow2(n) * h, m + Pow2(n) * k) == Or(l, m) + Pow2(n) * Or(h, k)
    ensures Xor(l + Pow2(n) * h, m + Pow2(n) * k) == Xor(l, m) + Pow2(n) * Xor(h, k)
  {
    hide And, Or, Xor;
    if n == 0 {
      NothingMeets();
    } else {
      Joined(n - 1, l / 2, h, m / 2, k);
      var p := Pow2(n - 1);
      OneMoreBit(l, p * h, m, p * k, p * And(h, k), p * Or(h, k), p * Xor(h, k));
      DoubledProduct(p, h);
      DoubledProduct(p, k);
      DoubledProduct(p, And(h, k));
      DoubledProduct(p, Or(h, k));
      DoubledProduct(p, Xor(h, k));
    }
  }

  lemma NothingMeets()
    ensures And(0, 0) == 0 && Or(0, 0) == 0 && Xor(0, 0) == 0
  {
  }

  lemma OneMoreBit(l: nat, h: nat, m: nat, k: nat, and: nat, or: nat, xor: nat)
    requires And(l / 2 + h, m / 2 + k) == And(l / 2, m / 2) + and
    requires Or(l / 2 + h, m / 2 + k) == Or(l / 2, m / 2) + or
    requires Xor(l / 2 + h, m / 2 + k) == Xor(l / 2, m / 2) + xor
    ensures And(l + 2 * h, m + 2 * k) == And(l, m) + 2 * and
    ensures Or(l + 2 * h, m + 2 * k) == Or(l, m) + 2 * or
    ensures Xor(l + 2 * h, m + 2 * k) == Xor(l, m) + 2 * xor
  {
    hide And, Or, Xor;
    EvenAdded(l, h);
    EvenAdded(m, k);
    OperationsByParts(l + 2 * h, m + 2 * k);
    OperationsByParts(l, m);
  }

  lemma OperationsByParts(x: nat, y: nat)
    ensures And(x, y) == 2 * And(x / 2, y / 2) + if x % 2 == 1 && y % 2 == 1 then 1 else 0
    ensures Or(x, y) == 2 * Or(x / 2, y / 2) + if x % 2 == 1 || y % 2 == 1 then 1 else 0
    ensures Xor(x, y) == 2 * Xor(x / 2, y / 2) + if x % 2 == y % 2 then 0 else 1
  {
    hide And, Or, Xor;
    AndParts(x, y);
    OrParts(x, y);
    XorParts(x, y);
  }

  lemma BytesJoined(x: bv8, y: bv8, h: nat, k: nat)
    ensures And(Number(x) + 0x100 * h, Number(y) + 0x100 * k) == Number(Both(x, y)) + 0x100 * And(h, k)
    ensures Or(Number(x) + 0x100 * h, Number(y) + 0x100 * k) == Number(Either(x, y)) + 0x100 * Or(h, k)
    ensures Xor(Number(x) + 0x100 * h, Number(y) + 0x100 * k) == Number(OneOf(x, y)) + 0x100 * Xor(h, k)
  {
    hide Number, Both, Either, OneOf, And, Or, Xor;
    assert Pow2(8) == 0x100;
    AndOfBytes(x, y, 8);
    OrOfBytes(x, y, 8);
    XorOfBytes(x, y, 8);
    Joined(8, Number(x), h, Number(y), k);
  }

  function AndFour(x: Four, y: Four): Four {
    Four(Both(x.b0, y.b0), Both(x.b1, y.b1), Both(x.b2, y.b2), Both(x.b3, y.b3))
  }

  function OrFour(x: Four, y: Four): Four {
    Four(Either(x.b0, y.b0), Either(x.b1, y.b1), Either(x.b2, y.b2), Either(x.b3, y.b3))
  }

  function XorFour(x: Four, y: Four): Four {
    Four(OneOf(x.b0, y.b0), OneOf(x.b1, y.b1), OneOf(x.b2, y.b2), OneOf(x.b3, y.b3))
  }

  function NotFour(x: Four): Four {
    Four(Flipped(x.b0), Flipped(x.b1), Flipped(x.b2), Flipped(x.b3))
  }

  lemma OperationsOnHigh2(x: Four, y: Four)
    ensures And(High2(x), High2(y)) == High2(AndFour(x, y))
    ensures Or(High2(x), High2(y)) == High2(OrFour(x, y))
    ensures Xor(High2(x), High2(y)) == High2(XorFour(x, y))
  {
    hide Number, Both, Either, OneOf, And, Or, Xor;
    assert Pow2(8) == 0x100;
    AndOfBytes(x.b3, y.b3, 8);
    OrOfBytes(x.b3, y.b3, 8);
    XorOfBytes(x.b3, y.b3, 8);
    BytesJoined(x.b2, y.b2, Number(x.b3), Number(y.b3));
  }

  lemma OperationsOnHigh3(x: Four, y: Four)
    ensures And(High3(x), High3(y)) == High3(AndFour(x, y))
    ensures Or(High3(x), High3(y)) == High3(OrFour(x, y))
    ensures Xor(High3(x), High3(y)) == High3(XorFour(x, y))
  {
    OperationsOnHigh2(x, y);
    BytesJoined(x.b1, y.b1, High2(x), High2(y));
    hide Number, Both, Either, OneOf, And, Or, Xor, High2;
  }

  lemma ValueParts(w: Four)
    ensures Value(w) == Number(w.b0) + 0x100 * High3(w)
  {
  }

  lemma OperationsOnWords(x: Four, y: Four)
    ensures AndW(Value(x), Value(y)) == Value(AndFour(x, y))
    ensures OrW(Value(x), Value(y)) == Value(OrFour(x, y))
    ensures XorW(Value(x), Value(y)) == Value(XorFour(x, y))
  {
    OperationsOnHigh3(x, y);
    BytesJoined(x.b0, y.b0, High3(x), High3(y));
    ValueParts(x);
    ValueParts(y);
    ValueParts(AndFour(x, y));
    ValueParts(OrFour(x, y));
    ValueParts(XorFour(x, y));
    hide Number, Both, Either, OneOf, And, Or, Xor, High3, Value;
  }

  lemma NotOfWord(x: Four)
    ensures Not(Value(x)) == Value(NotFour(x))
  {
    ValueParts(x);
    ValueParts(NotFour(x));
    hide Number, Flipped, Value;
    FlippedIsComplement(x.b0);
    FlippedIsComplement(x.b1);
    FlippedIsComplement(x.b2);
    FlippedIsComplement(x.b3);
  }

  function MixByte(i: nat, x: bv8, y: bv8, z: bv8): bv8 {
    if i < 16 then (x & y) | (!x & z)
    else if i < 32 then (x & z) | (y & !z)
    else if i < 48 then x ^ y ^ z
    else y ^ (x | !z)
  }

  function MixFour(i: nat, x: Four, y: Four, z: Four): Four {
    Four(MixByte(i, x.b0, y.b0, z.b0), MixByte(i, x.b1, y.b1, z.b1),
         MixByte(i, x.b2, y.b2, z.b2), MixByte(i, x.b3, y.b3, z.b3))
  }

  lemma ByteOfF(x: bv8, y: bv8, z: bv8)
    ensures Either(Both(x, y), Both(Flipped(x), z)) == (x & y) | (!x & z)
  {
  }

  lemma ByteOfG(x: bv8, y: bv8, z: bv8)
    ensures Either(Both(x, z), Both(y, Flipped(z))) == (x & z) | (y & !z)
  {
  }

  lemma ByteOfH(x: bv8, y: bv8, z: bv8)
    ensures OneOf(OneOf(x, y), z) == x ^ y ^ z
  {
  }

  lemma ByteOfI(x: bv8, y: bv8, z: bv8)
    ensures OneOf(y, Either(x, Flipped(z))) == y ^ (x | !z)
  {
  }

  lemma MixByteIs(i: nat, x: bv8, y: bv8, z: bv8)
    ensures MixByte(i, x, y, z) ==
            if i < 16 then Either(Both(x, y), Both(Flipped(x), z))
            else if i < 32 then Either(Both(x, z), Both(y, Flipped(z)))
            else if i < 48 then OneOf(OneOf(x, y), z)
            else OneOf(y, Either(x, Flipped(z)))
  {
    hide Both, Either, OneOf, Flipped;
    ByteOfF(x, y, z);
    ByteOfG(x, y, z);
    ByteOfH(x, y, z);
    ByteOfI(x, y, z);
  }

  lemma MixFourIs(i: nat, x: Four, y: Four, z: Four)
    ensures MixFour(i, x, y, z) ==
            if i < 16 then OrFour(AndFour(x, y), AndFour(NotFour(x), z))
            else if i < 32 then OrFour(AndFour(x, z), AndFour(y, NotFour(z)))
            else if i < 48 then XorFour(XorFour(x, y), z)
            else XorFour(y, OrFour(x, NotFour(z)))
  {
    hide MixByte, Both, Either, OneOf, Flipped;
    MixByteIs(i, x.b0, y.b0, z.b0);
    MixByteIs(i, x.b1, y.b1, z.b1);
    MixByteIs(i, x.b2, y.b2, z.b2);
    MixByteIs(i, x.b3, y.b3, z.b3);
  }

  /** The auxiliary functions work byte by byte. */
  lemma MixIsBytewise(i: nat, x: Four, y: Four, z: Four)
    ensures Mix(i, Value(x), Value(y), Value(z)) == Value(MixFour(i, x, y, z))
  {
    MixFourIs(i, x, y, z);
    hide Value, AndW, OrW, XorW, Not, MixFour, AndFour, OrFour, XorFour, NotFour;
    NotOfWord(x);
    NotOfWord(z);
    if i < 16 {
      OperationsOnWords(x, y);
      OperationsOnWords(NotFour(x), z);
      OperationsOnWords(AndFour(x, y), AndFour(NotFour(x), z));
    } else if i < 32 {
      OperationsOnWords(x, z);
      OperationsOnWords(y, NotFour(z));
      OperationsOnWords(AndFour(x, z), AndFour(y, NotFour(z)));
    } else if i < 48 {
      OperationsOnWords(x, y);
      OperationsOnWords(XorFour(x, y), z);
    } else {
      OperationsOnWords(x, NotFour(z));
      OperationsOnWords(y, OrFour(x, NotFour(z)));
    }
  }

  lemma Mixed(i: nat, x: Four, y: Four, z: Four, f: Four)
    requires MixFour(i, x, y, z) == f
    ensures Mix(i, Value(x), Value(y), Value(z)) == Value(f)
  {
    hide Mix, Value;
    MixIsBytewise(i, x, y, z);
  }
}
