/** The MD5 algorithm of RFC 1321 as a function on whole messages, with the properties the
    streaming implementation rests on. */
module Md5Spec {
  import opened Buffers
  import opened Words

  // ---- Section 3.4: the auxiliary functions and the 64 steps ----

  datatype Registers = Registers(a: Word, b: Word, c: Word, d: Word)

  function Add(x: Word, y: Word): Word {
    (x + y) % 0x1_0000_0000
  }

  function Not(x: Word): Word {
    0x1_0000_0000 - 1 - x
  }

  function AndW(x: Word, y: Word): Word {
    And(x, y)
  }

  function OrW(x: Word, y: Word): Word {
    Pow2Of32();
    OrXorBound(x, y, 32);
    Or(x, y)
  }

  function XorW(x: Word, y: Word): Word {
    Pow2Of32();
    OrXorBound(x, y, 32);
    Xor(x, y)
  }

  function F(x: Word, y: Word, z: Word): Word {
    OrW(AndW(x, y), AndW(Not(x), z))
  }

  function G(x: Word, y: Word, z: Word): Word {
    OrW(AndW(x, z), AndW(y, Not(z)))
  }

  function H(x: Word, y: Word, z: Word): Word {
    XorW(XorW(x, y), z)
  }

  function I(x: Word, y: Word, z: Word): Word {
    XorW(y, OrW(x, Not(z)))
  }

  lemma BitOfNot(x: Word, k: nat)
    requires k < 32
    ensures Bit(Not(x), k) == 1 - Bit(x, k)
  {
    Pow2Of32();
    BitOfComplement(x, 32, k);
  }

  /** F is the choice RFC 1321 describes: where X is set it takes Y, elsewhere Z. */
  lemma FChoosesByX(x: Word, y: Word, z: Word, k: nat)
    requires k < 32
    ensures Bit(F(x, y, z), k) == if Bit(x, k) == 1 then Bit(y, k) else Bit(z, k)
  {
    BitOfNot(x, k);
    BitOfAnd(x, y, k);
    BitOfAnd(Not(x), z, k);
    BitOfOr(AndW(x, y), AndW(Not(x), z), k);
  }

  /** G makes the same choice by Z. */
  lemma GChoosesByZ(x: Word, y: Word, z: Word, k: nat)
    requires k < 32
    ensures Bit(G(x, y, z), k) == if Bit(z, k) == 1 then Bit(x, k) else Bit(y, k)
  {
    BitOfNot(z, k);
    BitOfAnd(x, z, k);
    BitOfAnd(y, Not(z), k);
    BitOfOr(AndW(x, z), AndW(y, Not(z)), k);
  }

  /** H is the parity of the three bits. */
  lemma HIsParity(x: Word, y: Word, z: Word, k: nat)
    requires k < 32
    ensures Bit(H(x, y, z), k) == (Bit(x, k) + Bit(y, k) + Bit(z, k)) % 2
  {
    hide Bit, Xor;
    BitOfXor(x, y, k);
    BitOfXor(XorW(x, y), z, k);
  }

  /** I flips Y where X is set or Z is clear. */
  lemma IFlipsY(x: Word, y: Word, z: Word, k: nat)
    requires k < 32
    ensures Bit(I(x, y, z), k) ==
            if Bit(x, k) == 1 || Bit(z, k) == 0 then 1 - Bit(y, k) else Bit(y, k)
  {
    BitOfNot(z, k);
    BitOfOr(x, Not(z), k);
    BitOfXor(y, OrW(x, Not(z)), k);
  }

  /** `x << n`: doubled n times, what does not fit being lost. */
  function ShiftLeft(x: Word, n: nat): Word
    decreases n
  {
    if n == 0 then x else ShiftLeft(2 * x % 0x1_0000_0000, n - 1)
  }

  /** `x >> n`. */
  function ShiftRight(x: Word, n: nat): Word {
    HalvedBound(x, n);
    Halved(x, n)
  }

  lemma {:induction false} HalvedBound(x: nat, n: nat)
    ensures 0 <= Halved(x, n) <= x
    decreases n
  {
    if n > 0 {
      HalvedBound(x / 2, n - 1);
    }
  }

  lemma {:induction false} ShiftLeftIsProduct(x: Word, n: nat)
    ensures ShiftLeft(x, n) == x * Pow2(n) % 0x1_0000_0000
    decreases n
  {
    if n > 0 {
      var p := Pow2(n - 1);
      ShiftLeftIsProduct(2 * x % 0x1_0000_0000, n - 1);
      WrappedFactor(2 * x, p, 0x1_0000_0000);
      FactorMoves(x, p);
    } else {
      OneFactor(x);
    }
  }

  lemma FactorMoves(x: nat, p: nat)
    ensures 2 * x * p == x * (2 * p)
  {
  }

  lemma OneFactor(x: Word)
    ensures x * 1 % 0x1_0000_0000 == x
  {
  }

  lemma WrappedFactor(x: nat, p: nat, w: nat)
    requires w > 0
    ensures (x % w) * p % w == x * p % w
  {
    var k := x / w;
    assert x * p == w * (k * p) + (x % w) * p by {
      assert x == w * k + x % w;
      assert (w * k + x % w) * p == w * k * p + (x % w) * p;
    }
    var y := (x % w) * p;
    assert y == w * (y / w) + y % w;
    assert w * (k * p) + w * (y / w) == w * (k * p + y / w);
    DivModUnique(x * p, w, k * p + y / w, y % w);
  }

  function RotateLeft(x: Word, n: nat): Word
    requires 0 < n < 32
  {
    OrW(ShiftLeft(x, n), ShiftRight(x, 32 - n))
  }

  function RotateRight(x: Word, n: nat): Word
    requires 0 < n < 32
  {
    RotateLeft(x, 32 - n)
  }

  /** Shifting left by n keeps the low 32 - n bits; shifting right by 32 - n leaves n bits. */
  lemma RotationHalves(x: Word, n: nat)
    requires 0 < n < 32
    ensures (x * Pow2(n)) % 0x1_0000_0000 == (x % Pow2(32 - n)) * Pow2(n)
    ensures x / Pow2(32 - n) < Pow2(n)
    ensures (x % Pow2(32 - n)) * Pow2(n) + x / Pow2(32 - n) < 0x1_0000_0000
  {
    Pow2Sum(n, 32 - n);
    Pow2Of32();
    Halves(x, Pow2(n), Pow2(32 - n), 0x1_0000_0000);
  }

  lemma RotationIsSum(x: Word, n: nat)
    requires 0 < n < 32
    ensures RotateLeft(x, n) == (x % Pow2(32 - n)) * Pow2(n) + x / Pow2(32 - n)
  {
    HalvedIsQuotient(x, 32 - n);
    var low := ShiftRight(x, 32 - n);
    RotationHalves(x, n);
    ShiftLeftIsProduct(x, n);
    OrOfDisjoint(x % Pow2(32 - n), low, n);
  }

  lemma Halves(x: nat, p: nat, q: nat, w: nat)
    requires p > 0 && q > 0 && p * q == w && x < w
    ensures x / q < p
    ensures (x * p) % w == (x % q) * p
    ensures (x % q) * p + x / q < w
  {
    var h, l := x / q, x % q;
    assert x == q * h + l;
    assert h < p by {
      if p <= h {
        ProductMonotone(q, p, h);
        assert false;
      }
    }
    ProductMonotone(p, l + 1, q);
    ShiftedHalves(h, l, p, q);
    DivModUnique(x * p, w, h, l * p);
  }

  lemma ShiftedHalves(h: nat, l: nat, p: nat, q: nat)
    ensures (q * h + l) * p == (p * q) * h + l * p
    ensures p * (l + 1) == l * p + p
  {
  }

  lemma RotateInverse(x: Word, n: nat)
    requires 0 < n < 32
    ensures RotateRight(RotateLeft(x, n), n) == x
    ensures RotateLeft(RotateRight(x, n), n) == x
  {
    RotateBack(x, n);
    RotateBack(x, 32 - n);
  }

  lemma RotateBack(x: Word, n: nat)
    requires 0 < n < 32
    ensures RotateLeft(RotateLeft(x, n), 32 - n) == x
  {
    var p, q := Pow2(n), Pow2(32 - n);
    var y := RotateLeft(x, n);
    assert y == (x % q) * p + x / q by { RotationIsSum(x, n); }
    assert x / q < p by { RotationHalves(x, n); }
    assert (y % p) * q + y / p == x by { SwapHalves(x, p, q); }
    RotationIsSum(y, 32 - n);
  }

  lemma SwapHalves(x: nat, p: nat, q: nat)
    requires p > 0 && q > 0 && x / q < p
    ensures var y := (x % q) * p + x / q; (y % p) * q + y / p == x
  {
    var y := (x % q) * p + x / q;
    DivModUnique(y, p, x % q, x / q);
  }

  /** The constants T[1..64] of section 3.4, one table a round. */
  const T1: seq<Word> := [
    0xd76aa478, 0xe8c7b756, 0x242070db, 0xc1bdceee,
    0xf57c0faf, 0x4787c62a, 0xa8304613, 0xfd469501,
    0x698098d8, 0x8b44f7af, 0xffff5bb1, 0x895cd7be,
    0x6b901122, 0xfd987193, 0xa679438e, 0x49b40821]

  const T2: seq<Word> := [
    0xf61e2562, 0xc040b340, 0x265e5a51, 0xe9b6c7aa,
    0xd62f105d, 0x02441453, 0xd8a1e681, 0xe7d3fbc8,
    0x21e1cde6, 0xc33707d6, 0xf4d50d87, 0x455a14ed,
    0xa9e3e905, 0xfcefa3f8, 0x676f02d9, 0x8d2a4c8a]

  const T3: seq<Word> := [
    0xfffa3942, 0x8771f681, 0x6d9d6122, 0xfde5380c,
    0xa4beea44, 0x4bdecfa9, 0xf6bb4b60, 0xbebfbc70,
    0x289b7ec6, 0xeaa127fa, 0xd4ef3085, 0x04881d05,
    0xd9d4d039, 0xe6db99e5, 0x1fa27cf8, 0xc4ac5665]

  const T4: seq<Word> := [
    0xf4292244, 0x432aff97, 0xab9423a7, 0xfc93a039,
    0x655b59c3, 0x8f0ccc92, 0xffeff47d, 0x85845dd1,
    0x6fa87e4f, 0xfe2ce6e0, 0xa3014314, 0x4e0811a1,
    0xf7537e82, 0xbd3af235, 0x2ad7d2bb, 0xeb86d391]

  function T(i: nat): Word
    requires i < 64
  {
    if i < 16 then T1[i] else if i < 32 then T2[i - 16] else if i < 48 then T3[i - 32] else T4[i - 48]
  }

  /** Which message word step `i` adds: i, 1 + 5i, 5 + 3i and 7i modulo 16 in the four rounds. */
  function MessageIndex(i: nat): (k: nat)
    requires i < 64
    ensures k < 16
  {
    if i < 16 then i
    else if i < 32 then (1 + 5 * (i - 16)) % 16
    else if i < 48 then (5 + 3 * (i - 32)) % 16
    else (7 * (i - 48)) % 16
  }

  /** The rotation of step `i`: four amounts a round, in cyclic order. */
  function Shift(i: nat): (s: nat)
    requires i < 64
    ensures 0 < s < 32
  {
    if i < 16 then [7, 12, 17, 22][i % 4]
    else if i < 32 then [5, 9, 14, 20][i % 4]
    else if i < 48 then [4, 11, 16, 23][i % 4]
    else [6, 10, 15, 21][i % 4]
  }

  function Mix(i: nat, x: Word, y: Word, z: Word): Word {
    if i < 16 then F(x, y, z) else if i < 32 then G(x, y, z) else if i < 48 then H(x, y, z) else I(x, y, z)
  }

  /** What step `i` adds to its register: the mixed registers, a message word and a constant. */
  function Addend(i: nat, y: Word, z: Word, w: Word, x: seq<Word>): int
    requires i < 64 && |x| == 16
  {
    Mix(i, y, z, w) + x[MessageIndex(i)] + T(i)
  }

  /** The operation a = b + ((a + addend) <<< s), after which the registers change places. */
  function Turn(r: Registers, addend: int, s: nat): Registers
    requires 0 < s < 32
  {
    Registers(r.d, Add(r.b, RotateLeft((r.a + addend) % 0x1_0000_0000, s)), r.b, r.c)
  }

  function Step(i: nat, r: Registers, x: seq<Word>): Registers
    requires i < 64 && |x| == 16
  {
    Turn(r, Addend(i, r.b, r.c, r.d, x), Shift(i))
  }

  /** The first `n` steps. */
  function Steps(n: nat, r: Registers, x: seq<Word>): Registers
    requires n <= 64 && |x| == 16
  {
    if n == 0 then r else Step(n - 1, Steps(n - 1, r, x), x)
  }

  /** Subtract, rotate right, subtract the addend. */
  function TurnBack(r: Registers, addend: int, s: nat): Registers
    requires 0 < s < 32
  {
    Registers((RotateRight((r.b - r.c) % 0x1_0000_0000, s) - addend) % 0x1_0000_0000, r.c, r.d, r.a)
  }

  function UndoStep(i: nat, r: Registers, x: seq<Word>): Registers
    requires i < 64 && |x| == 16
  {
    TurnBack(r, Addend(i, r.c, r.d, r.a, x), Shift(i))
  }

  /** Undoes the first `n` steps, the last one first. */
  function UndoSteps(n: nat, r: Registers, x: seq<Word>): Registers
    requires n <= 64 && |x| == 16
  {
    if n == 0 then r else UndoSteps(n - 1, UndoStep(n - 1, r, x), x)
  }

  lemma WrapCancels(w: Word, e: int)
    ensures ((w + e) % 0x1_0000_0000 - e) % 0x1_0000_0000 == w
    ensures ((w - e) % 0x1_0000_0000 + e) % 0x1_0000_0000 == w
  {
    WrapTerm(-e, w + e);
    WrapTerm(e, w - e);
  }

  lemma TurnBackAfterTurn(r: Registers, addend: int, s: nat)
    requires 0 < s < 32
    ensures TurnBack(Turn(r, addend, s), addend, s) == r
  {
    hide RotateLeft, RotateRight;
    var mixed: Word := (r.a + addend) % 0x1_0000_0000;
    var rotated := RotateLeft(mixed, s);
    assert RotateRight(rotated, s) == mixed by { RotateInverse(mixed, s); }
    WrapCancels(rotated, r.b);
    WrapCancels(r.a, addend);
    assert Turn(r, addend, s) == Registers(r.d, Add(r.b, rotated), r.b, r.c);
    assert (Add(r.b, rotated) - r.b) % 0x1_0000_0000 == rotated;
    assert (mixed - addend) % 0x1_0000_0000 == r.a;
  }

  lemma TurnAfterTurnBack(r: Registers, addend: int, s: nat)
    requires 0 < s < 32
    ensures Turn(TurnBack(r, addend, s), addend, s) == r
  {
    hide RotateLeft, RotateRight;
    var rotated: Word := (r.b - r.c) % 0x1_0000_0000;
    var mixed := RotateRight(rotated, s);
    assert RotateLeft(mixed, s) == rotated by { RotateInverse(rotated, s); }
    WrapCancels(mixed, addend);
    WrapCancels(r.b, r.c);
    assert Add(r.c, rotated) == r.b;
  }

  lemma StepIsReversible(i: nat, r: Registers, x: seq<Word>)
    requires i < 64 && |x| == 16
    ensures UndoStep(i, Step(i, r, x), x) == r
    ensures Step(i, UndoStep(i, r, x), x) == r
  {
    TurnBackAfterTurn(r, Addend(i, r.b, r.c, r.d, x), Shift(i));
    TurnAfterTurnBack(r, Addend(i, r.c, r.d, r.a, x), Shift(i));
  }

  /** For every block, the 64 steps permute the four-word states: they have a two-sided inverse. */
  lemma {:induction false} StepsAreReversible(n: nat, r: Registers, x: seq<Word>)
    requires n <= 64 && |x| == 16
    ensures UndoSteps(n, Steps(n, r, x), x) == r
    ensures Steps(n, UndoSteps(n, r, x), x) == r
  {
    if n > 0 {
      StepIsReversible(n - 1, Steps(n - 1, r, x), x);
      StepsAreReversible(n - 1, r, x);
      StepIsReversible(n - 1, r, x);
      StepsAreReversible(n - 1, UndoStep(n - 1, r, x), x);
    }
  }

  // ---- Sections 3.1 to 3.5: bytes, padding and the digest of a message ----

  function Bytes4(w: Word): seq<Byte> {
    [w % 0x100, w / 0x100 % 0x100, w / 0x1_0000 % 0x100, w / 0x100_0000 % 0x100]
  }

  function Word4(b: seq<Byte>): Word
    requires |b| == 4
  {
    b[0] as int + 0x100 * (b[1] as int) + 0x1_0000 * (b[2] as int) + 0x100_0000 * (b[3] as int)
  }

  /** Words as bytes, low-order byte first. */
  function EncodeWords(ws: seq<Word>): (bs: seq<Byte>)
    ensures |bs| == 4 * |ws|
  {
    if ws == [] then [] else EncodeWords(ws[..|ws| - 1]) + Bytes4(ws[|ws| - 1])
  }

  /** Bytes as words, low-order byte first. */
  function DecodeWords(bs: seq<Byte>): (ws: seq<Word>)
    requires |bs| % 4 == 0
    ensures |ws| == |bs| / 4
  {
    if bs == [] then [] else DecodeWords(bs[..|bs| - 4]) + [Word4(bs[|bs| - 4..])]
  }

  /** A number is its last byte and the rest. */
  lemma LastByte(x: nat)
    ensures x == x % 0x100 + 0x100 * (x / 0x100)
  {
  }

  lemma WordOfBytes(w: Word)
    ensures Word4(Bytes4(w)) == w
  {
    LastByte(w);
    LastByte(w / 0x100);
    LastByte(w / 0x1_0000);
    assert w / 0x100 / 0x100 == w / 0x1_0000 && w / 0x1_0000 / 0x100 == w / 0x100_0000;
  }

  lemma BytesOfWord(b: seq<Byte>)
    requires |b| == 4
    ensures Bytes4(Word4(b)) == b
  {
    var w := Word4(b);
    assert w / 0x100 == b[1] as int + 0x100 * (b[2] as int) + 0x1_0000 * (b[3] as int);
    assert w / 0x1_0000 == b[2] as int + 0x100 * (b[3] as int);
    assert w / 0x100_0000 == b[3];
  }

  lemma {:induction false} DecodeEncode(ws: seq<Word>)
    ensures DecodeWords(EncodeWords(ws)) == ws
  {
    hide Bytes4, Word4;
    if ws != [] {
      var front, last := ws[..|ws| - 1], ws[|ws| - 1];
      DecodeEncode(front);
      WordOfBytes(last);
      var bs := EncodeWords(ws);
      assert bs == EncodeWords(front) + Bytes4(last);
      assert bs[..|bs| - 4] == EncodeWords(front);
      assert bs[|bs| - 4..] == Bytes4(last);
      assert ws == front + [last];
    }
  }

  lemma {:induction false} EncodeDecode(bs: seq<Byte>)
    requires |bs| % 4 == 0
    ensures EncodeWords(DecodeWords(bs)) == bs
  {
    hide Bytes4, Word4;
    if bs != [] {
      var front, last := bs[..|bs| - 4], bs[|bs| - 4..];
      EncodeDecode(front);
      BytesOfWord(last);
      var ws := DecodeWords(bs);
      assert ws == DecodeWords(front) + [Word4(last)];
      assert ws[..|ws| - 1] == DecodeWords(front);
      assert bs == front + last;
    }
  }

  lemma EncodedTwo(w: Word, v: Word)
    ensures EncodeWords([w, v]) == Bytes4(w) + Bytes4(v)
  {
    hide Bytes4;
    assert [w, v][..1] == [w];
    assert [w][..0] == [];
    assert EncodeWords([w]) == [] + Bytes4(w);
  }

  lemma EncodedFour(w: Word, v: Word, u: Word, t: Word)
    ensures EncodeWords([w, v, u, t]) == Bytes4(w) + Bytes4(v) + Bytes4(u) + Bytes4(t)
  {
    hide Bytes4;
    EncodedTwo(w, v);
    assert [w, v, u][..2] == [w, v];
    assert [w, v, u, t][..3] == [w, v, u];
  }

  const INITIAL := Registers(0x67452301, 0xefcdab89, 0x98badcfe, 0x10325476)

  /** Section 3.3 gives the initial state as the bytes from 01 up to ef and down again. */
  lemma InitialBytes()
    ensures EncodeWords([INITIAL.a, INITIAL.b, INITIAL.c, INITIAL.d])
         == [0x01, 0x23, 0x45, 0x67, 0x89, 0xab, 0xcd, 0xef, 0xfe, 0xdc, 0xba, 0x98, 0x76, 0x54, 0x32, 0x10]
  {
    EncodedFour(INITIAL.a, INITIAL.b, INITIAL.c, INITIAL.d);
    BytesOfWord([0x01, 0x23, 0x45, 0x67]);
    BytesOfWord([0x89, 0xab, 0xcd, 0xef]);
    BytesOfWord([0xfe, 0xdc, 0xba, 0x98]);
    BytesOfWord([0x76, 0x54, 0x32, 0x10]);
  }

  /** One block: the 64 steps, then the sum with the state before them. */
  function Compress(r: Registers, block: seq<Byte>): Registers
    requires |block| == 64
  {
    var x := DecodeWords(block);
    var after := Steps(4 * |x|, r, x);
    Registers(Add(r.a, after.a), Add(r.b, after.b), Add(r.c, after.c), Add(r.d, after.d))
  }

  /** The state after every complete block of `m`; an incomplete last block has no effect. */
  function Absorb(r: Registers, m: seq<Byte>): Registers
    decreases |m|
  {
    if |m| < 64 then r else Absorb(Compress(r, m[..64]), m[64..])
  }

  /** The state can be carried over any block boundary. */
  lemma {:induction false} AbsorbConcat(r: Registers, m: seq<Byte>, n: seq<Byte>)
    requires |m| % 64 == 0
    ensures Absorb(r, m + n) == Absorb(Absorb(r, m), n)
    decreases |m|
  {
    hide Compress;
    if m == [] {
      assert m + n == n;
    } else {
      assert (m + n)[..64] == m[..64] && (m + n)[64..] == m[64..] + n;
      AbsorbConcat(Compress(r, m[..64]), m[64..], n);
    }
  }

  /** The bytes after the last complete block. */
  function Tail(m: seq<Byte>): (t: seq<Byte>)
    ensures |t| == |m| % 64
  {
    m[|m| - |m| % 64..]
  }

  /** What is left of a message, followed by more bytes, takes the place of the whole. */
  lemma AbsorbTail(m: seq<Byte>, n: seq<Byte>)
    ensures Absorb(INITIAL, m + n) == Absorb(Absorb(INITIAL, m), Tail(m) + n)
  {
    hide Compress;
    var whole := m[..|m| - |m| % 64];
    assert m == whole + Tail(m);
    assert m + n == whole + (Tail(m) + n);
    AbsorbConcat(INITIAL, whole, Tail(m));
    AbsorbConcat(INITIAL, whole, Tail(m) + n);
  }

  lemma TailOfTail(m: seq<Byte>, n: seq<Byte>)
    ensures Tail(m + n) == Tail(Tail(m) + n)
  {
    var rest := Tail(m) + n;
    var whole := m[..|m| - |m| % 64];
    assert |m + n| == 64 * (|m| / 64) + |rest|;
    assert |m + n| % 64 == |rest| % 64;
    assert m + n == whole + rest;
  }

  /** The two words of the 64-bit length in bits, low-order word first. */
  function BitLength(n: nat): (w: seq<Word>)
    ensures |w| == 2
    ensures w[0] as int + 0x1_0000_0000 * (w[1] as int) == 8 * n % 0x1_0000_0000_0000_0000
  {
    LowAndHigh(8 * n);
    [8 * n % 0x1_0000_0000, 8 * n / 0x1_0000_0000 % 0x1_0000_0000]
  }

  lemma LowAndHigh(x: nat)
    ensures x % 0x1_0000_0000 + 0x1_0000_0000 * (x / 0x1_0000_0000 % 0x1_0000_0000) == x % 0x1_0000_0000_0000_0000
  {
    var low, rest := x % 0x1_0000_0000, x / 0x1_0000_0000;
    var high, more := rest % 0x1_0000_0000, rest / 0x1_0000_0000;
    DivModUnique(x, 0x1_0000_0000_0000_0000, more, low + 0x1_0000_0000 * high);
  }

  /** Section 3.1: a one bit, then zero bits up to 56 bytes modulo 64. */
  function Padding(n: nat): (p: seq<Byte>)
    ensures 1 <= |p| <= 64 && (n + |p|) % 64 == 56
  {
    [0x80] + Zeros((55 - n) % 64)
  }

  /** Sections 3.1 and 3.2: the message, the padding and the length. */
  function Padded(m: seq<Byte>): (p: seq<Byte>)
    ensures |p| % 64 == 0
  {
    var p := Padding(|m|);
    EightMore(|m| + |p|);
    m + p + EncodeWords(BitLength(|m|))
  }

  lemma EightMore(n: nat)
    requires n % 64 == 56
    ensures (n + 8) % 64 == 0
  {
  }

  /** Section 3.5: the final state as sixteen bytes. */
  function Digest(m: seq<Byte>): (d: seq<Byte>)
    ensures |d| == 16
  {
    var r := Absorb(INITIAL, Padded(m));
    EncodeWords([r.a, r.b, r.c, r.d])
  }

  /** Padding forgets nothing: messages of fewer than 2^61 bytes that pad alike are the same. */
  lemma PaddedIsInjective(m: seq<Byte>, n: seq<Byte>)
    requires 8 * |m| < 0x1_0000_0000_0000_0000 && 8 * |n| < 0x1_0000_0000_0000_0000
    requires Padded(m) == Padded(n)
    ensures m == n
  {
    hide Padding, EncodeWords, DecodeWords;
    var p, q := Padded(m), Padded(n);
    assert p[|p| - 8..] == EncodeWords(BitLength(|m|));
    assert q[|q| - 8..] == EncodeWords(BitLength(|n|));
    DecodeEncode(BitLength(|m|));
    DecodeEncode(BitLength(|n|));
    assert |m| == |n|;
    assert m == p[..|m|] && n == q[..|n|];
  }
}
