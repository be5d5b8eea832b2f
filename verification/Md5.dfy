/** The streaming MD5 of md5.c, proved to compute the digest of RFC 1321. */
module Md5 {
  import opened Buffers
  import opened Words
  import opened Md5Spec

  const S11 := 7
  const S12 := 12
  const S13 := 17
  const S14 := 22
  const S21 := 5
  const S22 := 9
  const S23 := 14
  const S24 := 20
  const S31 := 4
  const S32 := 11
  const S33 := 16
  const S34 := 23
  const S41 := 6
  const S42 := 10
  const S43 := 15
  const S44 := 21

  function FF(a: Word, b: Word, c: Word, d: Word, x: Word, s: nat, ac: Word): Word
    requires 0 < s < 32
  {
    Add(RotateLeft(Add(a, Add(Add(F(b, c, d), x), ac)), s), b)
  }

  function GG(a: Word, b: Word, c: Word, d: Word, x: Word, s: nat, ac: Word): Word
    requires 0 < s < 32
  {
    Add(RotateLeft(Add(a, Add(Add(G(b, c, d), x), ac)), s), b)
  }

  function HH(a: Word, b: Word, c: Word, d: Word, x: Word, s: nat, ac: Word): Word
    requires 0 < s < 32
  {
    Add(RotateLeft(Add(a, Add(Add(H(b, c, d), x), ac)), s), b)
  }

  function II(a: Word, b: Word, c: Word, d: Word, x: Word, s: nat, ac: Word): Word
    requires 0 < s < 32
  {
    Add(RotateLeft(Add(a, Add(Add(I(b, c, d), x), ac)), s), b)
  }

  /** The macro that step `i` of the unrolled code uses, with its message word, rotation and
      constant taken from the tables of RFC 1321. */
  function Macro(i: nat, a: Word, b: Word, c: Word, d: Word, x: seq<Word>): Word
    requires i < 64 && |x| == 16
  {
    if i < 16 then FF(a, b, c, d, x[MessageIndex(i)], Shift(i), T(i))
    else if i < 32 then GG(a, b, c, d, x[MessageIndex(i)], Shift(i), T(i))
    else if i < 48 then HH(a, b, c, d, x[MessageIndex(i)], Shift(i), T(i))
    else II(a, b, c, d, x[MessageIndex(i)], Shift(i), T(i))
  }

  lemma WrappedSum(a: Word, m: Word, x: Word, k: Word)
    ensures Add(a, Add(Add(m, x), k)) == (a + (m + x + k)) % 0x1_0000_0000
  {
    WrapTerm(k, m + x);
    WrapTerm(a, m + x + k);
  }

  lemma MacroIsStep(i: nat, r: Registers, x: seq<Word>)
    requires i < 64 && |x| == 16
    ensures Step(i, r, x) == Registers(r.d, Macro(i, r.a, r.b, r.c, r.d, x), r.b, r.c)
  {
    hide Add, F, G, H, I, RotateLeft, MessageIndex, Shift, T;
    var sum := Add(r.a, Add(Add(Mix(i, r.b, r.c, r.d), x[MessageIndex(i)]), T(i)));
    WrappedSum(r.a, Mix(i, r.b, r.c, r.d), x[MessageIndex(i)], T(i));
    AddCommutes(r.b, RotateLeft(sum, Shift(i)));
  }

  lemma AddCommutes(x: Word, y: Word)
    ensures Add(x, y) == Add(y, x)
  {
  }

  /** After four macros with rotated arguments the registers are back in their places. */
  lemma FourMacros(n: nat, a: Word, b: Word, c: Word, d: Word, x: seq<Word>, r0: Registers)
    requires n <= 60 && |x| == 16
    requires Registers(a, b, c, d) == Steps(n, r0, x)
    ensures var a' := Macro(n, a, b, c, d, x);
            var d' := Macro(n + 1, d, a', b, c, x);
            var c' := Macro(n + 2, c, d', a', b, x);
            var b' := Macro(n + 3, b, c', d', a', x);
            Registers(a', b', c', d') == Steps(n + 4, r0, x)
  {
    hide Macro, Step;
    MacroIsStep(n, Registers(a, b, c, d), x);
    var a' := Macro(n, a, b, c, d, x);
    MacroIsStep(n + 1, Registers(d, a', b, c), x);
    var d' := Macro(n + 1, d, a', b, c, x);
    MacroIsStep(n + 2, Registers(c, d', a', b), x);
    var c' := Macro(n + 2, c, d', a', b, x);
    MacroIsStep(n + 3, Registers(b, c', d', a'), x);
    assert Steps(n + 1, r0, x) == Registers(d, a', b, c);
    assert Steps(n + 2, r0, x) == Registers(c, d', a', b);
    assert Steps(n + 3, r0, x) == Registers(b, c', d', a');
  }

  /** The first half of round 1 of the unrolled transform. */
  method Round1Start(a0: Word, b0: Word, c0: Word, d0: Word, x: seq<Word>, ghost r0: Registers)
    returns (a: Word, b: Word, c: Word, d: Word)
    requires |x| == 16
    requires Registers(a0, b0, c0, d0) == Steps(0, r0, x)
    ensures Registers(a, b, c, d) == Steps(8, r0, x)
  {
    hide FF, GG, HH, II, Steps;
    a, b, c, d := a0, b0, c0, d0;
    FourMacros(0, a, b, c, d, x, r0);
    a := FF(a, b, c, d, x[0], S11, 0xd76aa478);
    d := FF(d, a, b, c, x[1], S12, 0xe8c7b756);
    c := FF(c, d, a, b, x[2], S13, 0x242070db);
    b := FF(b, c, d, a, x[3], S14, 0xc1bdceee);
    FourMacros(4, a, b, c, d, x, r0);
    a := FF(a, b, c, d, x[4], S11, 0xf57c0faf);
    d := FF(d, a, b, c, x[5], S12, 0x4787c62a);
    c := FF(c, d, a, b, x[6], S13, 0xa8304613);
    b := FF(b, c, d, a, x[7], S14, 0xfd469501);
  }

  /** Round 1 of the unrolled transform. */
  method Round1(a0: Word, b0: Word, c0: Word, d0: Word, x: seq<Word>, ghost r0: Registers)
    returns (a: Word, b: Word, c: Word, d: Word)
    requires |x| == 16
    requires Registers(a0, b0, c0, d0) == Steps(0, r0, x)
    ensures Registers(a, b, c, d) == Steps(16, r0, x)
  {
    hide FF, GG, HH, II, Steps;
    a, b, c, d := Round1Start(a0, b0, c0, d0, x, r0);
    FourMacros(8, a, b, c, d, x, r0);
    a := FF(a, b, c, d, x[8], S11, 0x698098d8);
    d := FF(d, a, b, c, x[9], S12, 0x8b44f7af);
    c := FF(c, d, a, b, x[10], S13, 0xffff5bb1);
    b := FF(b, c, d, a, x[11], S14, 0x895cd7be);
    FourMacros(12, a, b, c, d, x, r0);
    a := FF(a, b, c, d, x[12], S11, 0x6b901122);
    d := FF(d, a, b, c, x[13], S12, 0xfd987193);
    c := FF(c, d, a, b, x[14], S13, 0xa679438e);
    b := FF(b, c, d, a, x[15], S14, 0x49b40821);
  }

  /** The first half of round 2 of the unrolled transform. */
  method Round2Start(a0: Word, b0: Word, c0: Word, d0: Word, x: seq<Word>, ghost r0: Registers)
    returns (a: Word, b: Word, c: Word, d: Word)
    requires |x| == 16
    requires Registers(a0, b0, c0, d0) == Steps(16, r0, x)
    ensures Registers(a, b, c, d) == Steps(24, r0, x)
  {
    hide FF, GG, HH, II, Steps;
    a, b, c, d := a0, b0, c0, d0;
    FourMacros(16, a, b, c, d, x, r0);
    a := GG(a, b, c, d, x[1], S21, 0xf61e2562);
    d := GG(d, a, b, c, x[6], S22, 0xc040b340);
    c := GG(c, d, a, b, x[11], S23, 0x265e5a51);
    b := GG(b, c, d, a, x[0], S24, 0xe9b6c7aa);
    FourMacros(20, a, b, c, d, x, r0);
    a := GG(a, b, c, d, x[5], S21, 0xd62f105d);
    d := GG(d, a, b, c, x[10], S22, 0x02441453);
    c := GG(c, d, a, b, x[15], S23, 0xd8a1e681);
    b := GG(b, c, d, a, x[4], S24, 0xe7d3fbc8);
  }

  /** Round 2 of the unrolled transform. */
  method Round2(a0: Word, b0: Word, c0: Word, d0: Word, x: seq<Word>, ghost r0: Registers)
    returns (a: Word, b: Word, c: Word, d: Word)
    requires |x| == 16
    requires Registers(a0, b0, c0, d0) == Steps(16, r0, x)
    ensures Registers(a, b, c, d) == Steps(32, r0, x)
  {
    hide FF, GG, HH, II, Steps;
    a, b, c, d := Round2Start(a0, b0, c0, d0, x, r0);
    FourMacros(24, a, b, c, d, x, r0);
    a := GG(a, b, c, d, x[9], S21, 0x21e1cde6);
    d := GG(d, a, b, c, x[14], S22, 0xc33707d6);
    c := GG(c, d, a, b, x[3], S23, 0xf4d50d87);
    b := GG(b, c, d, a, x[8], S24, 0x455a14ed);
    FourMacros(28, a, b, c, d, x, r0);
    a := GG(a, b, c, d, x[13], S21, 0xa9e3e905);
    d := GG(d, a, b, c, x[2], S22, 0xfcefa3f8);
    c := GG(c, d, a, b, x[7], S23, 0x676f02d9);
    b := GG(b, c, d, a, x[12], S24, 0x8d2a4c8a);
  }

  /** The first half of round 3 of the unrolled transform. */
  method Round3Start(a0: Word, b0: Word, c0: Word, d0: Word, x: seq<Word>, ghost r0: Registers)
    returns (a: Word, b: Word, c: Word, d: Word)
    requires |x| == 16
    requires Registers(a0, b0, c0, d0) == Steps(32, r0, x)
    ensures Registers(a, b, c, d) == Steps(40, r0, x)
  {
    hide FF, GG, HH, II, Steps;
    a, b, c, d := a0, b0, c0, d0;
    FourMacros(32, a, b, c, d, x, r0);
    a := HH(a, b, c, d, x[5], S31, 0xfffa3942);
    d := HH(d, a, b, c, x[8], S32, 0x8771f681);
    c := HH(c, d, a, b, x[11], S33, 0x6d9d6122);
    b := HH(b, c, d, a, x[14], S34, 0xfde5380c);
    FourMacros(36, a, b, c, d, x, r0);
    a := HH(a, b, c, d, x[1], S31, 0xa4beea44);
    d := HH(d, a, b, c, x[4], S32, 0x4bdecfa9);
    c := HH(c, d, a, b, x[7], S33, 0xf6bb4b60);
    b := HH(b, c, d, a, x[10], S34, 0xbebfbc70);
  }

  /** Round 3 of the unrolled transform. */
  method Round3(a0: Word, b0: Word, c0: Word, d0: Word, x: seq<Word>, ghost r0: Registers)
    returns (a: Word, b: Word, c: Word, d: Word)
    requires |x| == 16
    requires Registers(a0, b0, c0, d0) == Steps(32, r0, x)
    ensures Registers(a, b, c, d) == Steps(48, r0, x)
  {
    hide FF, GG, HH, II, Steps;
    a, b, c, d := Round3Start(a0, b0, c0, d0, x, r0);
    FourMacros(40, a, b, c, d, x, r0);
    a := HH(a, b, c, d, x[13], S31, 0x289b7ec6);
    d := HH(d, a, b, c, x[0], S32, 0xeaa127fa);
    c := HH(c, d, a, b, x[3], S33, 0xd4ef3085);
    b := HH(b, c, d, a, x[6], S34, 0x04881d05);
    FourMacros(44, a, b, c, d, x, r0);
    a := HH(a, b, c, d, x[9], S31, 0xd9d4d039);
    d := HH(d, a, b, c, x[12], S32, 0xe6db99e5);
    c := HH(c, d, a, b, x[15], S33, 0x1fa27cf8);
    b := HH(b, c, d, a, x[2], S34, 0xc4ac5665);
  }

  /** The first half of round 4 of the unrolled transform. */
  method Round4Start(a0: Word, b0: Word, c0: Word, d0: Word, x: seq<Word>, ghost r0: Registers)
    returns (a: Word, b: Word, c: Word, d: Word)
    requires |x| == 16
    requires Registers(a0, b0, c0, d0) == Steps(48, r0, x)
    ensures Registers(a, b, c, d) == Steps(56, r0, x)
  {
    hide FF, GG, HH, II, Steps;
    a, b, c, d := a0, b0, c0, d0;
    FourMacros(48, a, b, c, d, x, r0);
    a := II(a, b, c, d, x[0], S41, 0xf4292244);
    d := II(d, a, b, c, x[7], S42, 0x432aff97);
    c := II(c, d, a, b, x[14], S43, 0xab9423a7);
    b := II(b, c, d, a, x[5], S44, 0xfc93a039);
    FourMacros(52, a, b, c, d, x, r0);
    a := II(a, b, c, d, x[12], S41, 0x655b59c3);
    d := II(d, a, b, c, x[3], S42, 0x8f0ccc92);
    c := II(c, d, a, b, x[10], S43, 0xffeff47d);
    b := II(b, c, d, a, x[1], S44, 0x85845dd1);
  }

  /** Round 4 of the unrolled transform. */
  method Round4(a0: Word, b0: Word, c0: Word, d0: Word, x: seq<Word>, ghost r0: Registers)
    returns (a: Word, b: Word, c: Word, d: Word)
    requires |x| == 16
    requires Registers(a0, b0, c0, d0) == Steps(48, r0, x)
    ensures Registers(a, b, c, d) == Steps(64, r0, x)
  {
    hide FF, GG, HH, II, Steps;
    a, b, c, d := Round4Start(a0, b0, c0, d0, x, r0);
    FourMacros(56, a, b, c, d, x, r0);
    a := II(a, b, c, d, x[8], S41, 0x6fa87e4f);
    d := II(d, a, b, c, x[15], S42, 0xfe2ce6e0);
    c := II(c, d, a, b, x[6], S43, 0xa3014314);
    b := II(b, c, d, a, x[13], S44, 0x4e0811a1);
    FourMacros(60, a, b, c, d, x, r0);
    a := II(a, b, c, d, x[4], S41, 0xf7537e82);
    d := II(d, a, b, c, x[11], S42, 0xbd3af235);
    c := II(c, d, a, b, x[2], S43, 0x2ad7d2bb);
    b := II(b, c, d, a, x[9], S44, 0xeb86d391);
  }

  /** Writes each word as four bytes, low-order byte first. */
  method Encode(output: array<Byte>, input: seq<Word>, len: nat)
    requires len == 4 * |input| && len <= output.Length
    modifies output
    ensures output[..len] == EncodeWords(input) && output[len..] == old(output[len..])
  {
    var i, j := 0, 0;
    while j < len
      invariant 0 <= i <= |input| && j == 4 * i
      invariant output[..j] == EncodeWords(input[..i]) && output[len..] == old(output[len..])
    {
      output[j] := input[i] % 0x100;
      output[j + 1] := input[i] / 0x100 % 0x100;
      output[j + 2] := input[i] / 0x1_0000 % 0x100;
      output[j + 3] := input[i] / 0x100_0000 % 0x100;
      assert input[..i + 1][..i] == input[..i];
      assert output[..j + 4] == output[..j] + Bytes4(input[i]);
      i, j := i + 1, j + 4;
    }
    assert input[..i] == input;
  }

  /** Reads words from groups of four bytes, low-order byte first. */
  method Decode(output: array<Word>, input: seq<Byte>, len: nat)
    requires len == |input| && len % 4 == 0 && output.Length == len / 4
    modifies output
    ensures output[..] == DecodeWords(input)
  {
    hide DecodeWords, JoinBytes, Word4;
    DecodeNothing(input);
    var i, j := 0, 0;
    while j < len
      invariant 0 <= i <= output.Length && j == 4 * i
      invariant output[..i] == DecodeWords(input[..j])
    {
      output[i] := JoinBytes(input[j], input[j + 1], input[j + 2], input[j + 3]);
      DecodeOneMore(input, j);
      assert output[..i + 1] == output[..i] + [output[i]];
      i, j := i + 1, j + 4;
    }
    assert input[..j] == input && output[..i] == output[..];
  }

  lemma DecodeNothing(input: seq<Byte>)
    ensures DecodeWords(input[..0]) == []
  {
  }

  function JoinBytes(b0: Byte, b1: Byte, b2: Byte, b3: Byte): (w: Word)
    ensures w == Word4([b0, b1, b2, b3])
  {
    FourBytesJoin([b0, b1, b2, b3]);
    Or(Or(Or(b0, ShiftLeft(b1, 8)), ShiftLeft(b2, 16)), ShiftLeft(b3, 24))
  }

  lemma DecodeOneMore(input: seq<Byte>, j: nat)
    requires j % 4 == 0 && j + 4 <= |input|
    ensures DecodeWords(input[..j + 4]) == DecodeWords(input[..j]) + [Word4(input[j..j + 4])]
    ensures input[j..j + 4] == [input[j], input[j + 1], input[j + 2], input[j + 3]]
  {
    hide Word4;
    assert input[..j + 4][..j] == input[..j] && input[..j + 4][j..] == input[j..j + 4];
  }

  /** Or-ing shifted bytes together adds them, as no bits meet. */
  lemma FourBytesJoin(b: seq<Byte>)
    requires |b| == 4
    ensures Or(Or(Or(b[0], ShiftLeft(b[1], 8)), ShiftLeft(b[2], 16)), ShiftLeft(b[3], 24)) == Word4(b)
  {
    hide Or, ShiftLeft;
    BytePowers();
    hide Pow2;
    ByteJoins(b[0], b[1], 8);
    ByteJoins(b[0] as int + 0x100 * (b[1] as int), b[2], 16);
    ByteJoins(b[0] as int + 0x100 * (b[1] as int) + 0x1_0000 * (b[2] as int), b[3], 24);
  }

  lemma ByteJoins(low: nat, high: Byte, n: nat)
    requires n <= 24 && low < Pow2(n) && high * Pow2(n) < 0x1_0000_0000
    ensures Or(low, ShiftLeft(high, n)) == low + high * Pow2(n)
  {
    hide Or, ShiftLeft, Pow2;
    ShiftLeftIsProduct(high, n);
    OrCommutative(low, high * Pow2(n));
    OrOfDisjoint(high, low, n);
  }

  lemma BytePowers()
    ensures Pow2(8) == 0x100 && Pow2(16) == 0x1_0000 && Pow2(24) == 0x100_0000
  {
    assert Pow2(8) == 0x100;
    Pow2Sum(8, 8);
    Pow2Sum(8, 16);
  }

  function RegistersOf(s: seq<Word>): Registers
    requires |s| == 4
  {
    Registers(s[0], s[1], s[2], s[3])
  }

  /** The compression of one block into the state. */
  method Transform(state: array<Word>, block: seq<Byte>)
    requires state.Length == 4 && |block| == 64
    modifies state
    ensures RegistersOf(state[..]) == Compress(RegistersOf(old(state[..])), block)
  {
    hide FF, GG, HH, II, Step, Steps;
    ghost var r0 := RegistersOf(state[..]);
    var x := new Word[16];
    Decode(x, block, 64);
    assert Steps(0, r0, x[..]) == r0 by { StepsFromStart(r0, x[..]); }
    var a, b, c, d := Round1(state[0], state[1], state[2], state[3], x[..], r0);
    a, b, c, d := Round2(a, b, c, d, x[..], r0);
    a, b, c, d := Round3(a, b, c, d, x[..], r0);
    a, b, c, d := Round4(a, b, c, d, x[..], r0);
    state[0] := Add(state[0], a);
    state[1] := Add(state[1], b);
    state[2] := Add(state[2], c);
    state[3] := Add(state[3], d);
  }

  lemma StepsFromStart(r: Registers, x: seq<Word>)
    requires |x| == 16
    ensures Steps(0, r, x) == r
  {
  }

  /** The bit counter after `len` more bytes, with the carry found by comparison as the code
      finds it. */
  function CountAfter(count: seq<Word>, len: nat): (c: seq<Word>)
    requires |count| == 2 && len < 0x1_0000_0000
    ensures |c| == 2
  {
    var bits := 8 * len % 0x1_0000_0000;
    var low := (count[0] + bits) % 0x1_0000_0000;
    var high := if low < bits then (count[1] as int + 1) % 0x1_0000_0000 else count[1];
    [low, (high + len / 0x2000_0000) % 0x1_0000_0000]
  }

  lemma CountIsLength(n: nat, len: nat)
    requires len < 0x1_0000_0000
    ensures CountAfter(BitLength(n), len) == BitLength(n + len)
  {
    var a, l := 8 * n, 8 * len;
    SumWithCarry(a, l);
    assert l / 0x1_0000_0000 == len / 0x2000_0000;
    assert a + l == 8 * (n + len);
    WrappedHigh(a / 0x1_0000_0000, len / 0x2000_0000);
  }

  /** The low word of a sum is smaller than an addend's exactly when there is a carry. */
  lemma SumWithCarry(a: nat, l: nat)
    ensures var low := (a % 0x1_0000_0000 + l % 0x1_0000_0000) % 0x1_0000_0000;
            && (a + l) % 0x1_0000_0000 == low
            && (a + l) / 0x1_0000_0000 ==
               a / 0x1_0000_0000 + l / 0x1_0000_0000 + if low < l % 0x1_0000_0000 then 1 else 0
  {
    var ra, rl := a % 0x1_0000_0000, l % 0x1_0000_0000;
    var q := a / 0x1_0000_0000 + l / 0x1_0000_0000;
    assert a + l == 0x1_0000_0000 * q + (ra + rl);
    if ra + rl >= 0x1_0000_0000 {
      DivModUnique(a + l, 0x1_0000_0000, q + 1, ra + rl - 0x1_0000_0000);
    } else {
      DivModUnique(a + l, 0x1_0000_0000, q, ra + rl);
    }
  }

  lemma WrappedHigh(h: nat, k: nat)
    ensures (h % 0x1_0000_0000 + k) % 0x1_0000_0000 == (h + k) % 0x1_0000_0000
    ensures ((h % 0x1_0000_0000 + 1) % 0x1_0000_0000 + k) % 0x1_0000_0000 == (h + k + 1) % 0x1_0000_0000
  {
    WrapTerm(k, h);
    WrapTerm(1, h);
    WrapTerm(k, h + 1);
  }

  /** The block completed by the first bytes of the input. */
  lemma FirstBlock(m: seq<Byte>, block: seq<Byte>, part: seq<Byte>)
    requires |block| == 64 && block == Tail(m) + part
    ensures Absorb(INITIAL, m + part) == Compress(Absorb(INITIAL, m), block)
  {
    hide Compress;
    AbsorbTail(m, part);
    AbsorbOne(Absorb(INITIAL, m), block);
  }

  lemma AbsorbOne(r: Registers, block: seq<Byte>)
    requires |block| == 64
    ensures Absorb(r, block) == Compress(r, block)
  {
    hide Compress;
    assert block[..64] == block;
    assert Absorb(r, block) == Absorb(Compress(r, block), block[64..]);
  }

  /** A further block after complete ones. */
  lemma NextBlock(m: seq<Byte>, block: seq<Byte>, k: nat)
    requires |m| == 64 * k && |block| == 64
    ensures Absorb(INITIAL, m + block) == Compress(Absorb(INITIAL, m), block)
  {
    hide Compress;
    AbsorbConcat(INITIAL, m, block);
    AbsorbOne(Absorb(INITIAL, m), block);
  }

  /** Bytes that do not complete a block only lengthen the tail. */
  lemma Remainder(m: seq<Byte>, n: seq<Byte>)
    requires |Tail(m)| + |n| < 64
    ensures Absorb(INITIAL, m + n) == Absorb(INITIAL, m)
    ensures Tail(m + n) == Tail(m) + n
  {
    hide Compress, Absorb, Tail;
    var rest := Tail(m) + n;
    TailOfShort(rest);
    TailOfTail(m, n);
    AbsorbTail(m, n);
    NothingAbsorbed(Absorb(INITIAL, m), rest);
  }

  lemma WholeBlocks(m: seq<Byte>, k: nat)
    requires |m| == 64 * k
    ensures Tail(m) == []
  {
    DivModUnique(|m|, 64, k, 0);
  }

  lemma TailOfShort(m: seq<Byte>)
    requires |m| < 64
    ensures Tail(m) == m
  {
  }

  lemma BufferIndex(n: nat)
    ensures BitLength(n)[0] / 8 % 64 == n % 64
  {
    var q := 8 * n / 0x1_0000_0000;
    var m := n - 0x2000_0000 * q;
    assert 8 * n == 0x1_0000_0000 * q + BitLength(n)[0];
    assert BitLength(n)[0] / 8 == m;
    DivModUnique(m, 64, n / 64 - 0x80_0000 * q, n % 64);
  }

  lemma NothingAbsorbed(r: Registers, m: seq<Byte>)
    requires |m| < 64
    ensures Absorb(r, m) == r
  {
    hide Compress;
  }

  lemma InitialState(state: seq<Word>)
    requires |state| == 4 && state[0] == 0x67452301 && state[1] == 0xefcdab89
    requires state[2] == 0x98badcfe && state[3] == 0x10325476
    ensures RegistersOf(state) == INITIAL
    ensures EncodeWords(state) == [0x01, 0x23, 0x45, 0x67, 0x89, 0xab, 0xcd, 0xef,
                                   0xfe, 0xdc, 0xba, 0x98, 0x76, 0x54, 0x32, 0x10]
  {
    hide EncodeWords;
    InitialBytes();
    assert state == [INITIAL.a, INITIAL.b, INITIAL.c, INITIAL.d];
  }

  const PADDING: seq<Byte> := [0x80] + Zeros(63)

  /** MD5_CTX: the chaining state, the bit counter and the unprocessed bytes, together with
      every byte the context has been given since its last initialization. */
  class Context {
    const state: array<Word>
    const count: array<Word>
    const buffer: array<Byte>
    ghost var absorbed: seq<Byte>

    ghost predicate Shaped()
      reads this
    {
      && state.Length == 4 && count.Length == 2 && buffer.Length == 64
      && state != count && (state as object) != buffer && (count as object) != buffer
    }

    /** The context stands for the bytes it was given: its state is the chaining value of their
        complete blocks, the buffer starts with what is left over, and the counter is their
        length in bits modulo 2^64. */
    ghost predicate Valid()
      reads this, state, count, buffer
    {
      && Shaped()
      && RegistersOf(state[..]) == Absorb(INITIAL, absorbed)
      && buffer[..|absorbed| % 64] == Tail(absorbed)
      && count[..] == BitLength(|absorbed|)
    }

    ghost function Repr(): set<object>
      reads this
    {
      {this, state, count, buffer}
    }

    constructor ()
      ensures Shaped() && fresh(Repr())
    {
      state := new Word[4];
      count := new Word[2];
      buffer := new Byte[64];
    }

    /** MD5Init. */
    method Init()
      requires Shaped()
      modifies this, state, count
      ensures Valid() && absorbed == []
      ensures EncodeWords(state[..]) == [0x01, 0x23, 0x45, 0x67, 0x89, 0xab, 0xcd, 0xef,
                                         0xfe, 0xdc, 0xba, 0x98, 0x76, 0x54, 0x32, 0x10]
    {
      NothingAbsorbed(INITIAL, []);
      hide Absorb, EncodeWords, RegistersOf;
      count[0], count[1] := 0, 0;
      state[0] := 0x67452301;
      state[1] := 0xefcdab89;
      state[2] := 0x98badcfe;
      state[3] := 0x10325476;
      absorbed := [];
      InitialState(state[..]);
      assert count[..] == BitLength(0);
      assert buffer[..0] == Tail(absorbed);
    }

    /** The bit counter's part of MD5Update. */
    method CountBits(inputLen: nat)
      requires count.Length == 2 && inputLen < 0x1_0000_0000
      modifies count
      ensures count[..] == CountAfter(old(count[..]), inputLen)
    {
      var bits := 8 * inputLen % 0x1_0000_0000;
      count[0] := (count[0] + bits) % 0x1_0000_0000;
      if count[0] < bits {
        count[1] := (count[1] as int + 1) % 0x1_0000_0000;
      }
      count[1] := (count[1] + inputLen / 0x2000_0000) % 0x1_0000_0000;
    }

    /** The transforming part of MD5Update: all the blocks that the buffered bytes and the input
        complete, leaving `index` bytes in the buffer and the input from `i` on. */
    method TransformBlocks(input: seq<Byte>, start: nat) returns (i: nat, index: nat)
      requires Shaped() && |input| + 63 < 0x1_0000_0000
      requires RegistersOf(state[..]) == Absorb(INITIAL, absorbed)
      requires start == |absorbed| % 64 && buffer[..start] == Tail(absorbed)
      modifies state, buffer
      ensures i <= |input| && index + |input| - i < 64
      ensures RegistersOf(state[..]) == Absorb(INITIAL, absorbed + input[..i])
      ensures buffer[..index] == Tail(absorbed + input[..i])
    {
      hide Compress, Absorb, BitLength, Tail;
      var inputLen, partLen := |input|, 64 - start;
      if inputLen < partLen {
        assert absorbed + input[..0] == absorbed;
        return 0, start;
      }
      CopyInto(buffer, start, input[..partLen]);
      FirstBlock(absorbed, buffer[..], input[..partLen]);
      Transform(state, buffer[..]);
      ghost var k := |absorbed| / 64 + 1;
      i := partLen;
      while (i + 63) % 0x1_0000_0000 < inputLen
        invariant partLen <= i <= inputLen && |absorbed| + i == 64 * k
        invariant RegistersOf(state[..]) == Absorb(INITIAL, absorbed + input[..i])
      {
        NextBlock(absorbed + input[..i], input[i..i + 64], k);
        assert absorbed + input[..i] + input[i..i + 64] == absorbed + input[..i + 64];
        Transform(state, input[i..i + 64]);
        i, k := i + 64, k + 1;
      }
      index := 0;
      WholeBlocks(absorbed + input[..i], k);
    }

    /** MD5Update: give the context the bytes of `input`.

        The loop test adds 63 to a 32-bit index, so the input must leave room for that sum. */
    method Update(input: seq<Byte>)
      requires Valid() && |input| + 63 < 0x1_0000_0000
      modifies this, state, count, buffer
      ensures Valid() && absorbed == old(absorbed) + input
    {
      hide Compress, Absorb, CountAfter, BitLength, Tail;
      var index := count[0] / 8 % 64;
      BufferIndex(|absorbed|);
      CountIsLength(|absorbed|, |input|);
      CountBits(|input|);
      var i;
      i, index := TransformBlocks(input, index);
      ghost var blocks := absorbed + input[..i];
      Remainder(blocks, input[i..]);
      assert blocks + input[i..] == absorbed + input;
      CopyInto(buffer, index, input[i..]);
      assert buffer[..index + |input[i..]|] == Tail(absorbed + input);
      absorbed := absorbed + input;
    }

    /** MD5Final: write the digest of everything absorbed and wipe the context. */
    method Final(digest: array<Byte>)
      requires Valid() && digest.Length == 16 && digest as object !in Repr()
      modifies this, state, count, buffer, digest
      ensures digest[..] == Digest(old(absorbed))
      ensures Shaped() && absorbed == []
      ensures state[..] == [0, 0, 0, 0] && count[..] == [0, 0] && buffer[..] == Zeros(64)
    {
      hide Compress, Absorb, Tail, BitLength, EncodeWords, CountAfter, RegistersOf;
      ghost var message := absorbed;
      var bits := new Byte[8];
      Encode(bits, count[..], 8);
      assert bits[..] == EncodeWords(BitLength(|message|));

      var index := count[0] / 8 % 64;
      BufferIndex(|message|);
      var padLen := if index < 56 then 56 - index else 120 - index;
      PaddingIsPrefix(|message|, padLen);
      Update(PADDING[..padLen]);
      Update(bits[..]);
      assert absorbed == Padded(message);

      Encode(digest, state[..], 16);
      assert digest[..] == digest[..16];
      DigestOfState(message, state[..]);
      Zeroize();
    }

    method Zeroize()
      requires Shaped()
      modifies this, state, count, buffer
      ensures Shaped() && absorbed == []
      ensures state[..] == [0, 0, 0, 0] && count[..] == [0, 0] && buffer[..] == Zeros(64)
    {
      state[0], state[1], state[2], state[3] := 0, 0, 0, 0;
      count[0], count[1] := 0, 0;
      for i := 0 to 64
        invariant state[..] == [0, 0, 0, 0] && count[..] == [0, 0]
        invariant forall k :: 0 <= k < i ==> buffer[k] == 0
      {
        buffer[i] := 0;
      }
      absorbed := [];
    }
  }

  /** The pad length the code computes is that of RFC 1321. */
  lemma PaddingIsPrefix(n: nat, padLen: nat)
    requires padLen == if n % 64 < 56 then 56 - n % 64 else 120 - n % 64
    ensures PADDING[..padLen] == Padding(n)
  {
    assert (55 - n) % 64 == padLen - 1;
  }

  lemma DigestOfState(m: seq<Byte>, state: seq<Word>)
    requires |state| == 4 && RegistersOf(state) == Absorb(INITIAL, Padded(m))
    ensures EncodeWords(state) == Digest(m)
  {
    hide Compress, Absorb, Padded;
    var r := RegistersOf(state);
    assert state == [r.a, r.b, r.c, r.d];
  }

  function Concat(pieces: seq<seq<Byte>>): seq<Byte> {
    if pieces == [] then [] else Concat(pieces[..|pieces| - 1]) + pieces[|pieces| - 1]
  }

  /** However a message is cut into updates, the digest is that of the whole message. */
  method DigestOfPieces(pieces: seq<seq<Byte>>) returns (d: seq<Byte>)
    requires forall p :: p in pieces ==> |p| + 63 < 0x1_0000_0000
    ensures d == Digest(Concat(pieces))
  {
    hide Compress, Absorb, Digest;
    var ctx := new Context();
    ctx.Init();
    for i := 0 to |pieces|
      invariant ctx.Valid() && fresh(ctx.Repr())
      invariant ctx.absorbed == Concat(pieces[..i])
    {
      ctx.Update(pieces[i]);
      assert pieces[..i + 1][..i] == pieces[..i];
    }
    assert pieces[..|pieces|] == pieces;
    var digest := new Byte[16];
    ctx.Final(digest);
    d := digest[..];
  }
}
