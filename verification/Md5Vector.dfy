/** A value of the MD5 test suite in appendix A.5 of RFC 1321: it fixes every constant, index and
    rotation of the algorithm, and the order of bytes, from outside. */
module Md5Vector {
  import opened Buffers
  import opened Words
  import opened Md5Spec
  import opened Md5Bytes

  // ---- One step ----

  lemma RotatedSum(sum: int, carry: nat, high: nat, low: nat, s: nat)
    requires 0 < s < 32 && high < Pow2(s) && low < Pow2(32 - s)
    requires sum == carry * 0x1_0000_0000 + high * Pow2(32 - s) + low
    ensures RotateLeft(sum % 0x1_0000_0000, s) == low * Pow2(s) + high
  {
    hide RotateLeft, Pow2;
    var p, q := Pow2(s), Pow2(32 - s);
    var word := high * q + low;
    assert word < 0x1_0000_0000 by {
      Pow2Sum(s, 32 - s);
      Pow2Of32();
      ProductMonotone(q, high + 1, p);
      NextProduct(q, high);
    }
    DivModUnique(sum, 0x1_0000_0000, carry, word);
    DivModUnique(word, q, high, low);
    RotationIsSum(word, s);
  }

  lemma NextProduct(q: int, high: int)
    ensures q * (high + 1) == high * q + q
  {
  }

  /** Step i on known registers: f is what it mixes, `carry` and `carry2` what its two sums lose, and
      `high` and `low` are the parts that the rotation by s changes over. */
  lemma Advance(i: nat, x: seq<Word>, a: Word, b: Word, c: Word, d: Word, f: Word, carry: nat, high: nat, low: nat,
                carry2: nat, v: Word)
    requires i < 64 && |x| == 16 && Steps(i, INITIAL, x) == Registers(a, b, c, d) && Mix(i, b, c, d) == f
    requires high < Pow2(Shift(i)) && low < Pow2(32 - Shift(i))
    requires a + f + x[MessageIndex(i)] + T(i) == carry * 0x1_0000_0000 + high * Pow2(32 - Shift(i)) + low
    requires b + low * Pow2(Shift(i)) + high == carry2 * 0x1_0000_0000 + v
    ensures Steps(i + 1, INITIAL, x) == Registers(d, v, b, c)
  {
    hide T, Mix, RotateLeft, Pow2, Shift, MessageIndex;
    RotatedSum(a + f + x[MessageIndex(i)] + T(i), carry, high, low, Shift(i));
    DivModUnique(b + low * Pow2(Shift(i)) + high, 0x1_0000_0000, carry2, v);
  }

  /** The sixteen words of the padded alphabet. */
  predicate Alphabet(x: seq<Word>) {
    && |x| == 16
    && x[0] == 0x64636261 && x[1] == 0x68676665 && x[2] == 0x6c6b6a69 && x[3] == 0x706f6e6d
    && x[4] == 0x74737271 && x[5] == 0x78777675 && x[6] == 0x807a79 && x[7] == 0
    && x[8] == 0 && x[9] == 0 && x[10] == 0 && x[11] == 0
    && x[12] == 0 && x[13] == 0 && x[14] == 0xd0 && x[15] == 0
  }

  lemma Powers()
    ensures Pow2(4) == 0x10 && Pow2(5) == 0x20 && Pow2(6) == 0x40 && Pow2(7) == 0x80 && Pow2(9) == 0x200
    ensures Pow2(10) == 0x400 && Pow2(11) == 0x800 && Pow2(12) == 0x1000 && Pow2(14) == 0x4000
    ensures Pow2(15) == 0x8000 && Pow2(16) == 0x1_0000 && Pow2(17) == 0x2_0000 && Pow2(18) == 0x4_0000
    ensures Pow2(20) == 0x10_0000 && Pow2(21) == 0x20_0000 && Pow2(22) == 0x40_0000 && Pow2(23) == 0x80_0000
    ensures Pow2(25) == 0x200_0000 && Pow2(26) == 0x400_0000 && Pow2(27) == 0x800_0000 && Pow2(28) == 0x1000_0000
  {
    assert Pow2(8) == 0x100;
    assert Pow2(16) == 0x1_0000 by { Pow2Sum(8, 8); }
    assert Pow2(24) == 0x100_0000 by { Pow2Sum(16, 8); }
  }

  lemma Mixes0()
    ensures Mix(0, 0xefcdab89, 0x98badcfe, 0x10325476) == 0x98badcfe
    ensures Mix(1, 0xd6d117a6, 0xefcdab89, 0x98badcfe) == 0xceebcbd8
    ensures Mix(2, 0xaab1aaaa, 0xd6d117a6, 0xefcdab89) == 0xc7dd03a3
    ensures Mix(3, 0x227d8cf1, 0xaab1aaaa, 0xd6d117a6) == 0xf6b19ba6
    ensures Mix(4, 0x4503b812, 0x227d8cf1, 0xaab1aaaa) == 0xaab18ab8
    ensures Mix(5, 0xfe15f787, 0x4503b812, 0x227d8cf1) == 0x4469b872
    ensures Mix(6, 0xa811b278, 0xfe15f787, 0x4503b812) == 0xed13ba02
    ensures Mix(7, 0xb71122fc, 0xa811b278, 0xfe15f787) == 0xe815f77b
  {
    hide Mix;
    var w1 := Four(0x76, 0x54, 0x32, 0x10);
    var w2 := Four(0xfe, 0xdc, 0xba, 0x98);
    var w3 := Four(0x89, 0xab, 0xcd, 0xef);
    var w4 := Four(0xa6, 0x17, 0xd1, 0xd6);
    var w5 := Four(0xaa, 0xaa, 0xb1, 0xaa);
    var w6 := Four(0xf1, 0x8c, 0x7d, 0x22);
    var w7 := Four(0x12, 0xb8, 0x03, 0x45);
    var w8 := Four(0x87, 0xf7, 0x15, 0xfe);
    var w9 := Four(0x78, 0xb2, 0x11, 0xa8);
    var w10 := Four(0xfc, 0x22, 0x11, 0xb7);
    assert Value(w1) == 0x10325476;
    assert Value(w2) == 0x98badcfe;
    assert Value(w3) == 0xefcdab89;
    assert Value(w4) == 0xd6d117a6;
    assert Value(w5) == 0xaab1aaaa;
    assert Value(w6) == 0x227d8cf1;
    assert Value(w7) == 0x4503b812;
    assert Value(w8) == 0xfe15f787;
    assert Value(w9) == 0xa811b278;
    assert Value(w10) == 0xb71122fc;
    Mixed(0, w3, w2, w1, Four(0xfe, 0xdc, 0xba, 0x98));
    Mixed(1, w4, w3, w2, Four(0xd8, 0xcb, 0xeb, 0xce));
    Mixed(2, w5, w4, w3, Four(0xa3, 0x03, 0xdd, 0xc7));
    Mixed(3, w6, w5, w4, Four(0xa6, 0x9b, 0xb1, 0xf6));
    Mixed(4, w7, w6, w5, Four(0xb8, 0x8a, 0xb1, 0xaa));
    Mixed(5, w8, w7, w6, Four(0x72, 0xb8, 0x69, 0x44));
    Mixed(6, w9, w8, w7, Four(0x02, 0xba, 0x13, 0xed));
    Mixed(7, w10, w9, w8, Four(0x7b, 0xf7, 0x15, 0xe8));
  }

  lemma Mixes1()
    ensures Mix(8, 0xda9bbb0d, 0xb71122fc, 0xa811b278) == 0xb211227c
    ensures Mix(9, 0xae752899, 0xda9bbb0d, 0xb71122fc) == 0x9b112a6d
    ensures Mix(10, 0x2bbe757f, 0xae752899, 0xda9bbb0d) == 0xfa35aa19
    ensures Mix(11, 0x7d4bd80b, 0x2bbe757f, 0xae752899) == 0xab3e709b
    ensures Mix(12, 0x56cfa5cb, 0x7d4bd80b, 0x2bbe757f) == 0x7d7bd03f
    ensures Mix(13, 0x1754a316, 0x56cfa5cb, 0x7d4bd80b) == 0x7e4ff90b
    ensures Mix(14, 0x85567d90, 0x1754a316, 0x56cfa5cb) == 0x57dda15b
    ensures Mix(15, 0xdf74d5, 0x85567d90, 0x1754a316) == 0x1756f792
  {
    hide Mix;
    var w1 := Four(0x78, 0xb2, 0x11, 0xa8);
    var w2 := Four(0xfc, 0x22, 0x11, 0xb7);
    var w3 := Four(0x0d, 0xbb, 0x9b, 0xda);
    var w4 := Four(0x99, 0x28, 0x75, 0xae);
    var w5 := Four(0x7f, 0x75, 0xbe, 0x2b);
    var w6 := Four(0x0b, 0xd8, 0x4b, 0x7d);
    var w7 := Four(0xcb, 0xa5, 0xcf, 0x56);
    var w8 := Four(0x16, 0xa3, 0x54, 0x17);
    var w9 := Four(0x90, 0x7d, 0x56, 0x85);
    var w10 := Four(0xd5, 0x74, 0xdf, 0x00);
    assert Value(w1) == 0xa811b278;
    assert Value(w2) == 0xb71122fc;
    assert Value(w3) == 0xda9bbb0d;
    assert Value(w4) == 0xae752899;
    assert Value(w5) == 0x2bbe757f;
    assert Value(w6) == 0x7d4bd80b;
    assert Value(w7) == 0x56cfa5cb;
    assert Value(w8) == 0x1754a316;
    assert Value(w9) == 0x85567d90;
    assert Value(w10) == 0xdf74d5;
    Mixed(8, w3, w2, w1, Four(0x7c, 0x22, 0x11, 0xb2));
    Mixed(9, w4, w3, w2, Four(0x6d, 0x2a, 0x11, 0x9b));
    Mixed(10, w5, w4, w3, Four(0x19, 0xaa, 0x35, 0xfa));
    Mixed(11, w6, w5, w4, Four(0x9b, 0x70, 0x3e, 0xab));
    Mixed(12, w7, w6, w5, Four(0x3f, 0xd0, 0x7b, 0x7d));
    Mixed(13, w8, w7, w6, Four(0x0b, 0xf9, 0x4f, 0x7e));
    Mixed(14, w9, w8, w7, Four(0x5b, 0xa1, 0xdd, 0x57));
    Mixed(15, w10, w9, w8, Four(0x92, 0xf7, 0x56, 0x17));
  }

  lemma Mixes2()
    ensures Mix(16, 0x608d6b7e, 0xdf74d5, 0x85567d90) == 0x8d6955
    ensures Mix(17, 0x2d8071cc, 0x608d6b7e, 0xdf74d5) == 0x60807bee
    ensures Mix(18, 0x5dcee119, 0x2d8071cc, 0x608d6b7e) == 0x4d8c7198
    ensures Mix(19, 0xedfe7e4b, 0x5dcee119, 0x2d8071cc) == 0x7dcef059
    ensures Mix(20, 0x4c2145b3, 0xedfe7e4b, 0x5dcee119) == 0xec305f53
    ensures Mix(21, 0x570c43e0, 0x4c2145b3, 0xedfe7e4b) == 0x450d43f0
    ensures Mix(22, 0x977efd2a, 0x570c43e0, 0x4c2145b3) == 0x172c4762
    ensures Mix(23, 0xc28ab49d, 0x977efd2a, 0x570c43e0) == 0xc27abc8a
  {
    hide Mix;
    var w1 := Four(0x90, 0x7d, 0x56, 0x85);
    var w2 := Four(0xd5, 0x74, 0xdf, 0x00);
    var w3 := Four(0x7e, 0x6b, 0x8d, 0x60);
    var w4 := Four(0xcc, 0x71, 0x80, 0x2d);
    var w5 := Four(0x19, 0xe1, 0xce, 0x5d);
    var w6 := Four(0x4b, 0x7e, 0xfe, 0xed);
    var w7 := Four(0xb3, 0x45, 0x21, 0x4c);
    var w8 := Four(0xe0, 0x43, 0x0c, 0x57);
    var w9 := Four(0x2a, 0xfd, 0x7e, 0x97);
    var w10 := Four(0x9d, 0xb4, 0x8a, 0xc2);
    assert Value(w1) == 0x85567d90;
    assert Value(w2) == 0xdf74d5;
    assert Value(w3) == 0x608d6b7e;
    assert Value(w4) == 0x2d8071cc;
    assert Value(w5) == 0x5dcee119;
    assert Value(w6) == 0xedfe7e4b;
    assert Value(w7) == 0x4c2145b3;
    assert Value(w8) == 0x570c43e0;
    assert Value(w9) == 0x977efd2a;
    assert Value(w10) == 0xc28ab49d;
    Mixed(16, w3, w2, w1, Four(0x55, 0x69, 0x8d, 0x00));
    Mixed(17, w4, w3, w2, Four(0xee, 0x7b, 0x80, 0x60));
    Mixed(18, w5, w4, w3, Four(0x98, 0x71, 0x8c, 0x4d));
    Mixed(19, w6, w5, w4, Four(0x59, 0xf0, 0xce, 0x7d));
    Mixed(20, w7, w6, w5, Four(0x53, 0x5f, 0x30, 0xec));
    Mixed(21, w8, w7, w6, Four(0xf0, 0x43, 0x0d, 0x45));
    Mixed(22, w9, w8, w7, Four(0x62, 0x47, 0x2c, 0x17));
    Mixed(23, w10, w9, w8, Four(0x8a, 0xbc, 0x7a, 0xc2));
  }

  lemma Mixes3()
    ensures Mix(24, 0xc9f162d4, 0xc28ab49d, 0x977efd2a) == 0xc1f06095
    ensures Mix(25, 0x25bfae3b, 0xc9f162d4, 0xc28ab49d) == 0x9fbe659
    ensures Mix(26, 0x89980104, 0x25bfae3b, 0xc9f162d4) == 0xad9e8c2f
    ensures Mix(27, 0xf8c8365f, 0x89980104, 0x25bfae3b) == 0xa888271f
    ensures Mix(28, 0xe6d3b398, 0xf8c8365f, 0x89980104) == 0xf0d0375b
    ensures Mix(29, 0xf54d8710, 0xe6d3b398, 0xf8c8365f) == 0xf65b8790
    ensures Mix(30, 0x927b72e2, 0xf54d8710, 0xe6d3b398) == 0x935f3680
    ensures Mix(31, 0x2e69afc7, 0x927b72e2, 0xf54d8710) == 0x267bf7e2
  {
    hide Mix;
    var w1 := Four(0x2a, 0xfd, 0x7e, 0x97);
    var w2 := Four(0x9d, 0xb4, 0x8a, 0xc2);
    var w3 := Four(0xd4, 0x62, 0xf1, 0xc9);
    var w4 := Four(0x3b, 0xae, 0xbf, 0x25);
    var w5 := Four(0x04, 0x01, 0x98, 0x89);
    var w6 := Four(0x5f, 0x36, 0xc8, 0xf8);
    var w7 := Four(0x98, 0xb3, 0xd3, 0xe6);
    var w8 := Four(0x10, 0x87, 0x4d, 0xf5);
    var w9 := Four(0xe2, 0x72, 0x7b, 0x92);
    var w10 := Four(0xc7, 0xaf, 0x69, 0x2e);
    assert Value(w1) == 0x977efd2a;
    assert Value(w2) == 0xc28ab49d;
    assert Value(w3) == 0xc9f162d4;
    assert Value(w4) == 0x25bfae3b;
    assert Value(w5) == 0x89980104;
    assert Value(w6) == 0xf8c8365f;
    assert Value(w7) == 0xe6d3b398;
    assert Value(w8) == 0xf54d8710;
    assert Value(w9) == 0x927b72e2;
    assert Value(w10) == 0x2e69afc7;
    Mixed(24, w3, w2, w1, Four(0x95, 0x60, 0xf0, 0xc1));
    Mixed(25, w4, w3, w2, Four(0x59, 0xe6, 0xfb, 0x09));
    Mixed(26, w5, w4, w3, Four(0x2f, 0x8c, 0x9e, 0xad));
    Mixed(27, w6, w5, w4, Four(0x1f, 0x27, 0x88, 0xa8));
    Mixed(28, w7, w6, w5, Four(0x5b, 0x37, 0xd0, 0xf0));
    Mixed(29, w8, w7, w6, Four(0x90, 0x87, 0x5b, 0xf6));
    Mixed(30, w9, w8, w7, Four(0x80, 0x36, 0x5f, 0x93));
    Mixed(31, w10, w9, w8, Four(0xe2, 0xf7, 0x7b, 0x26));
  }

  lemma Mixes4()
    ensures Mix(32, 0xaeb35766, 0x2e69afc7, 0x927b72e2) == 0x12a18a43
    ensures Mix(33, 0xb4bf680e, 0xaeb35766, 0x2e69afc7) == 0x346590af
    ensures Mix(34, 0x4c8ffa80, 0xb4bf680e, 0xaeb35766) == 0x5683c5e8
    ensures Mix(35, 0x2361ed0a, 0x4c8ffa80, 0xb4bf680e) == 0xdb517f84
    ensures Mix(36, 0x6a5e211, 0x2361ed0a, 0x4c8ffa80) == 0x694bf59b
    ensures Mix(37, 0xb9c0c733, 0x6a5e211, 0x2361ed0a) == 0x9c04c828
    ensures Mix(38, 0xf1e6dc7a, 0xb9c0c733, 0x6a5e211) == 0x4e83f958
    ensures Mix(39, 0x23a9451b, 0xf1e6dc7a, 0xb9c0c733) == 0x6b8f5e52
  {
    hide Mix;
    var w1 := Four(0xe2, 0x72, 0x7b, 0x92);
    var w2 := Four(0xc7, 0xaf, 0x69, 0x2e);
    var w3 := Four(0x66, 0x57, 0xb3, 0xae);
    var w4 := Four(0x0e, 0x68, 0xbf, 0xb4);
    var w5 := Four(0x80, 0xfa, 0x8f, 0x4c);
    var w6 := Four(0x0a, 0xed, 0x61, 0x23);
    var w7 := Four(0x11, 0xe2, 0xa5, 0x06);
    var w8 := Four(0x33, 0xc7, 0xc0, 0xb9);
    var w9 := Four(0x7a, 0xdc, 0xe6, 0xf1);
    var w10 := Four(0x1b, 0x45, 0xa9, 0x23);
    assert Value(w1) == 0x927b72e2;
    assert Value(w2) == 0x2e69afc7;
    assert Value(w3) == 0xaeb35766;
    assert Value(w4) == 0xb4bf680e;
    assert Value(w5) == 0x4c8ffa80;
    assert Value(w6) == 0x2361ed0a;
    assert Value(w7) == 0x6a5e211;
    assert Value(w8) == 0xb9c0c733;
    assert Value(w9) == 0xf1e6dc7a;
    assert Value(w10) == 0x23a9451b;
    Mixed(32, w3, w2, w1, Four(0x43, 0x8a, 0xa1, 0x12));
    Mixed(33, w4, w3, w2, Four(0xaf, 0x90, 0x65, 0x34));
    Mixed(34, w5, w4, w3, Four(0xe8, 0xc5, 0x83, 0x56));
    Mixed(35, w6, w5, w4, Four(0x84, 0x7f, 0x51, 0xdb));
    Mixed(36, w7, w6, w5, Four(0x9b, 0xf5, 0x4b, 0x69));
    Mixed(37, w8, w7, w6, Four(0x28, 0xc8, 0x04, 0x9c));
    Mixed(38, w9, w8, w7, Four(0x58, 0xf9, 0x83, 0x4e));
    Mixed(39, w10, w9, w8, Four(0x52, 0x5e, 0x8f, 0x6b));
  }

  lemma Mixes5()
    ensures Mix(40, 0x8d41bf99, 0x23a9451b, 0xf1e6dc7a) == 0x5f0e26f8
    ensures Mix(41, 0xa3e88ead, 0x8d41bf99, 0x23a9451b) == 0xd00742f
    ensures Mix(42, 0x2c0b11c, 0xa3e88ead, 0x8d41bf99) == 0x2c698028
    ensures Mix(43, 0x66f6468d, 0x2c0b11c, 0xa3e88ead) == 0xc7de793c
    ensures Mix(44, 0x90a35af5, 0x66f6468d, 0x2c0b11c) == 0xf495ad64
    ensures Mix(45, 0xb5d41f9c, 0x90a35af5, 0x66f6468d) == 0x438103e4
    ensures Mix(46, 0xa04b4904, 0xb5d41f9c, 0x90a35af5) == 0x853c0c6d
    ensures Mix(47, 0x703d54d8, 0xa04b4904, 0xb5d41f9c) == 0x65a20240
  {
    hide Mix;
    var w1 := Four(0x7a, 0xdc, 0xe6, 0xf1);
    var w2 := Four(0x1b, 0x45, 0xa9, 0x23);
    var w3 := Four(0x99, 0xbf, 0x41, 0x8d);
    var w4 := Four(0xad, 0x8e, 0xe8, 0xa3);
    var w5 := Four(0x1c, 0xb1, 0xc0, 0x02);
    var w6 := Four(0x8d, 0x46, 0xf6, 0x66);
    var w7 := Four(0xf5, 0x5a, 0xa3, 0x90);
    var w8 := Four(0x9c, 0x1f, 0xd4, 0xb5);
    var w9 := Four(0x04, 0x49, 0x4b, 0xa0);
    var w10 := Four(0xd8, 0x54, 0x3d, 0x70);
    assert Value(w1) == 0xf1e6dc7a;
    assert Value(w2) == 0x23a9451b;
    assert Value(w3) == 0x8d41bf99;
    assert Value(w4) == 0xa3e88ead;
    assert Value(w5) == 0x2c0b11c;
    assert Value(w6) == 0x66f6468d;
    assert Value(w7) == 0x90a35af5;
    assert Value(w8) == 0xb5d41f9c;
    assert Value(w9) == 0xa04b4904;
    assert Value(w10) == 0x703d54d8;
    Mixed(40, w3, w2, w1, Four(0xf8, 0x26, 0x0e, 0x5f));
    Mixed(41, w4, w3, w2, Four(0x2f, 0x74, 0x00, 0x0d));
    Mixed(42, w5, w4, w3, Four(0x28, 0x80, 0x69, 0x2c));
    Mixed(43, w6, w5, w4, Four(0x3c, 0x79, 0xde, 0xc7));
    Mixed(44, w7, w6, w5, Four(0x64, 0xad, 0x95, 0xf4));
    Mixed(45, w8, w7, w6, Four(0xe4, 0x03, 0x81, 0x43));
    Mixed(46, w9, w8, w7, Four(0x6d, 0x0c, 0x3c, 0x85));
    Mixed(47, w10, w9, w8, Four(0x40, 0x02, 0xa2, 0x65));
  }

  lemma Mixes6()
    ensures Mix(48, 0x71d10367, 0x703d54d8, 0xa04b4904) == 0xfc8e327
    ensures Mix(49, 0xfc32dd6e, 0x71d10367, 0x703d54d8) == 0x8e23fc08
    ensures Mix(50, 0x65456b34, 0xfc32dd6e, 0x71d10367) == 0x135d22d2
    ensures Mix(51, 0xb35602cb, 0x65456b34, 0xfc32dd6e) == 0xd69a49ef
    ensures Mix(52, 0x33edb197, 0xb35602cb, 0x65456b34) == 0x8a9b714
    ensures Mix(53, 0xc1e942f1, 0x33edb197, 0xb35602cb) == 0xfe044e62
    ensures Mix(54, 0xd9bb987c, 0xc1e942f1, 0x33edb197) == 0x1c529c8d
    ensures Mix(55, 0x23a68048, 0xd9bb987c, 0xc1e942f1) == 0xe60d2532
  {
    hide Mix;
    var w1 := Four(0x04, 0x49, 0x4b, 0xa0);
    var w2 := Four(0xd8, 0x54, 0x3d, 0x70);
    var w3 := Four(0x67, 0x03, 0xd1, 0x71);
    var w4 := Four(0x6e, 0xdd, 0x32, 0xfc);
    var w5 := Four(0x34, 0x6b, 0x45, 0x65);
    var w6 := Four(0xcb, 0x02, 0x56, 0xb3);
    var w7 := Four(0x97, 0xb1, 0xed, 0x33);
    var w8 := Four(0xf1, 0x42, 0xe9, 0xc1);
    var w9 := Four(0x7c, 0x98, 0xbb, 0xd9);
    var w10 := Four(0x48, 0x80, 0xa6, 0x23);
    assert Value(w1) == 0xa04b4904;
    assert Value(w2) == 0x703d54d8;
    assert Value(w3) == 0x71d10367;
    assert Value(w4) == 0xfc32dd6e;
    assert Value(w5) == 0x65456b34;
    assert Value(w6) == 0xb35602cb;
    assert Value(w7) == 0x33edb197;
    assert Value(w8) == 0xc1e942f1;
    assert Value(w9) == 0xd9bb987c;
    assert Value(w10) == 0x23a68048;
    Mixed(48, w3, w2, w1, Four(0x27, 0xe3, 0xc8, 0x0f));
    Mixed(49, w4, w3, w2, Four(0x08, 0xfc, 0x23, 0x8e));
    Mixed(50, w5, w4, w3, Four(0xd2, 0x22, 0x5d, 0x13));
    Mixed(51, w6, w5, w4, Four(0xef, 0x49, 0x9a, 0xd6));
    Mixed(52, w7, w6, w5, Four(0x14, 0xb7, 0xa9, 0x08));
    Mixed(53, w8, w7, w6, Four(0x62, 0x4e, 0x04, 0xfe));
    Mixed(54, w9, w8, w7, Four(0x8d, 0x9c, 0x52, 0x1c));
    Mixed(55, w10, w9, w8, Four(0x32, 0x25, 0x0d, 0xe6));
  }

  lemma Mixes7()
    ensures Mix(56, 0x83877d1b, 0x23a68048, 0xd9bb987c) == 0x8461ffd3
    ensures Mix(57, 0x77c208, 0x83877d1b, 0x23a68048) == 0x5ff882a4
    ensures Mix(58, 0x847fc2e7, 0x77c208, 0x83877d1b) == 0xfc0800ef
    ensures Mix(59, 0xa3e2247f, 0x847fc2e7, 0x77c208) == 0x7b95ff18
    ensures Mix(60, 0x5e6bc930, 0xa3e2247f, 0x847fc2e7) == 0xdc09d947
    ensures Mix(61, 0x708ed9c2, 0x5e6bc930, 0xa3e2247f) == 0x22f412f2
    ensures Mix(62, 0x2baf1354, 0x708ed9c2, 0x5e6bc930) == 0xdb31ee1d
    ensures Mix(63, 0xd38f1e7f, 0x2baf1354, 0x708ed9c2) == 0xf4502d2b
  {
    hide Mix;
    var w1 := Four(0x7c, 0x98, 0xbb, 0xd9);
    var w2 := Four(0x48, 0x80, 0xa6, 0x23);
    var w3 := Four(0x1b, 0x7d, 0x87, 0x83);
    var w4 := Four(0x08, 0xc2, 0x77, 0x00);
    var w5 := Four(0xe7, 0xc2, 0x7f, 0x84);
    var w6 := Four(0x7f, 0x24, 0xe2, 0xa3);
    var w7 := Four(0x30, 0xc9, 0x6b, 0x5e);
    var w8 := Four(0xc2, 0xd9, 0x8e, 0x70);
    var w9 := Four(0x54, 0x13, 0xaf, 0x2b);
    var w10 := Four(0x7f, 0x1e, 0x8f, 0xd3);
    assert Value(w1) == 0xd9bb987c;
    assert Value(w2) == 0x23a68048;
    assert Value(w3) == 0x83877d1b;
    assert Value(w4) == 0x77c208;
    assert Value(w5) == 0x847fc2e7;
    assert Value(w6) == 0xa3e2247f;
    assert Value(w7) == 0x5e6bc930;
    assert Value(w8) == 0x708ed9c2;
    assert Value(w9) == 0x2baf1354;
    assert Value(w10) == 0xd38f1e7f;
    Mixed(56, w3, w2, w1, Four(0xd3, 0xff, 0x61, 0x84));
    Mixed(57, w4, w3, w2, Four(0xa4, 0x82, 0xf8, 0x5f));
    Mixed(58, w5, w4, w3, Four(0xef, 0x00, 0x08, 0xfc));
    Mixed(59, w6, w5, w4, Four(0x18, 0xff, 0x95, 0x7b));
    Mixed(60, w7, w6, w5, Four(0x47, 0xd9, 0x09, 0xdc));
    Mixed(61, w8, w7, w6, Four(0xf2, 0x12, 0xf4, 0x22));
    Mixed(62, w9, w8, w7, Four(0x1d, 0xee, 0x31, 0xdb));
    Mixed(63, w10, w9, w8, Four(0x2b, 0x2d, 0x50, 0xf4));
  }

  lemma Steps0(x: seq<Word>)
    requires Alphabet(x) && Steps(0, INITIAL, x) == Registers(0x67452301, 0xefcdab89, 0x98badcfe, 0x10325476)
    ensures Steps(8, INITIAL, x) == Registers(0xfe15f787, 0xda9bbb0d, 0xb71122fc, 0xa811b278)
  {
    Powers();
    Mixes0();
    hide Steps, Pow2, Mix;
    Advance(0, x, 0x67452301, 0xefcdab89, 0x98badcfe, 0x10325476, 0x98badcfe, 2, 0x1d, 0x1ce06d8, 1, 0xd6d117a6);
    Advance(1, x, 0x10325476, 0xd6d117a6, 0xefcdab89, 0x98badcfe, 0xceebcbd8, 2, 0x304, 0xd3e09, 1, 0xaab1aaaa);
    Advance(2, x, 0x98badcfe, 0xaab1aaaa, 0xd6d117a6, 0xefcdab89, 0xc7dd03a3, 1, 0x1e247, 0x3be5, 1, 0x227d8cf1);
    Advance(3, x, 0xefcdab89, 0x227d8cf1, 0xaab1aaaa, 0xd6d117a6, 0xf6b19ba6, 3, 0x62b21, 0x8a, 0, 0x4503b812);
    Advance(4, x, 0xd6d117a6, 0x4503b812, 0x227d8cf1, 0xaab1aaaa, 0xaab18ab8, 2, 0x75, 0x172247e, 0, 0xfe15f787);
    Advance(5, x, 0xaab1aaaa, 0xfe15f787, 0x4503b812, 0x227d8cf1, 0x4469b872, 1, 0xaf1, 0xa9fbb, 1, 0xa811b278);
    Advance(6, x, 0x227d8cf1, 0xa811b278, 0xfe15f787, 0x4503b812, 0xed13ba02, 1, 0x17084, 0x77f, 0, 0xb71122fc);
    Advance(7, x, 0x4503b812, 0xb71122fc, 0xa811b278, 0xfe15f787, 0xe815f77b, 2, 0xa9811, 0x8e, 0, 0xda9bbb0d);
  }

  lemma Steps1(x: seq<Word>)
    requires Alphabet(x) && Steps(8, INITIAL, x) == Registers(0xfe15f787, 0xda9bbb0d, 0xb71122fc, 0xa811b278)
    ensures Steps(16, INITIAL, x) == Registers(0x1754a316, 0x608d6b7e, 0xdf74d5, 0x85567d90)
  {
    Powers();
    Mixes1();
    hide Steps, Pow2, Mix;
    Advance(8, x, 0xfe15f787, 0xda9bbb0d, 0xb71122fc, 0xa811b278, 0xb211227c, 2, 0xc, 0x1a7b2db, 1, 0xae752899);
    Advance(9, x, 0xa811b278, 0xae752899, 0xda9bbb0d, 0xb71122fc, 0x9b112a6d, 1, 0xce6, 0x7d494, 1, 0x2bbe757f);
    Advance(10, x, 0xb71122fc, 0x2bbe757f, 0xae752899, 0xda9bbb0d, 0xfa35aa19, 2, 0x1628c, 0x28c6, 0, 0x7d4bd80b);
    Advance(11, x, 0xda9bbb0d, 0x7d4bd80b, 0x2bbe757f, 0xae752899, 0xab3e709b, 2, 0x3cdc0, 0x366, 1, 0x56cfa5cb);
    Advance(12, x, 0xae752899, 0x56cfa5cb, 0x7d4bd80b, 0x2bbe757f, 0x7d7bd03f, 1, 0x4b, 0x18109fa, 1, 0x1754a316);
    Advance(13, x, 0x2bbe757f, 0x1754a316, 0x56cfa5cb, 0x7d4bd80b, 0x7e4ff90b, 1, 0xa7a, 0x6e01d, 0, 0x85567d90);
    Advance(14, x, 0x7d4bd80b, 0x85567d90, 0x1754a316, 0x56cfa5cb, 0x57dda15b, 1, 0xf745, 0x3dc4, 1, 0xdf74d5);
    Advance(15, x, 0x56cfa5cb, 0xdf74d5, 0x85567d90, 0x1754a316, 0x1756f792, 0, 0x2df6a9, 0x17e, 0, 0x608d6b7e);
  }

  lemma Steps2(x: seq<Word>)
    requires Alphabet(x) && Steps(16, INITIAL, x) == Registers(0x1754a316, 0x608d6b7e, 0xdf74d5, 0x85567d90)
    ensures Steps(24, INITIAL, x) == Registers(0x570c43e0, 0xc9f162d4, 0xc28ab49d, 0x977efd2a)
  {
    Powers();
    Mixes2();
    hide Steps, Pow2, Mix;
    Advance(16, x, 0x1754a316, 0x608d6b7e, 0xdf74d5, 0x85567d90, 0x8d6955, 1, 0xe, 0x6679832, 1, 0x2d8071cc);
    Advance(17, x, 0x85567d90, 0x2d8071cc, 0x608d6b7e, 0xdf74d5, 0x60807bee, 1, 0x14d, 0x182737, 0, 0x5dcee119);
    Advance(18, x, 0xdf74d5, 0x5dcee119, 0x2d8071cc, 0x608d6b7e, 0x4d8c7198, 0, 0x1d32, 0x240be, 0, 0xedfe7e4b);
    Advance(19, x, 0x608d6b7e, 0xedfe7e4b, 0x5dcee119, 0x2d8071cc, 0x7dcef059, 2, 0x2c768, 0x5e2, 1, 0x4c2145b3);
    Advance(20, x, 0x2d8071cc, 0x4c2145b3, 0xedfe7e4b, 0x5dcee119, 0xec305f53, 2, 0xd, 0x5757f1, 0, 0x570c43e0);
    Advance(21, x, 0x5dcee119, 0x570c43e0, 0x4c2145b3, 0xedfe7e4b, 0x450d43f0, 0, 0x14a, 0x20395c, 0, 0x977efd2a);
    Advance(22, x, 0xedfe7e4b, 0x977efd2a, 0x570c43e0, 0x4c2145b3, 0x172c4762, 1, 0x3773, 0xac2e, 0, 0xc28ab49d);
    Advance(23, x, 0x4c2145b3, 0xc28ab49d, 0x977efd2a, 0x570c43e0, 0xc27abc8a, 2, 0x6ae37, 0x76, 0, 0xc9f162d4);
  }

  lemma Steps3(x: seq<Word>)
    requires Alphabet(x) && Steps(24, INITIAL, x) == Registers(0x570c43e0, 0xc9f162d4, 0xc28ab49d, 0x977efd2a)
    ensures Steps(32, INITIAL, x) == Registers(0xf54d8710, 0xaeb35766, 0x2e69afc7, 0x927b72e2)
  {
    Powers();
    Mixes3();
    hide Steps, Pow2, Mix;
    Advance(24, x, 0x570c43e0, 0xc9f162d4, 0xc28ab49d, 0x977efd2a, 0xc1f06095, 1, 7, 0x2de725b, 1, 0x25bfae3b);
    Advance(25, x, 0x977efd2a, 0x25bfae3b, 0xc9f162d4, 0xc28ab49d, 0x9fbe659, 1, 0xc9, 0x31ec29, 0, 0x89980104);
    Advance(26, x, 0xc28ab49d, 0x89980104, 0x25bfae3b, 0xc9f162d4, 0xad9e8c2f, 2, 0x355b, 0x1bcc0, 0, 0xf8c8365f);
    Advance(27, x, 0xc9f162d4, 0xf8c8365f, 0x89980104, 0x25bfae3b, 0xa888271f, 1, 0xb7d39, 0xee0, 1, 0xe6d3b398);
    Advance(28, x, 0x25bfae3b, 0xe6d3b398, 0xf8c8365f, 0x89980104, 0xf0d0375b, 1, 0x18, 0x73ce9b, 0, 0xf54d8710);
    Advance(29, x, 0x89980104, 0xf54d8710, 0xe6d3b398, 0xf8c8365f, 0xf65b8790, 2, 0x1d2, 0x4e96f5, 1, 0x927b72e2);
    Advance(30, x, 0xf8c8365f, 0x927b72e2, 0xf54d8710, 0xe6d3b398, 0x935f3680, 1, 0x3ce5, 0x26fb8, 1, 0x2e69afc7);
    Advance(31, x, 0xe6d3b398, 0x2e69afc7, 0x927b72e2, 0xf54d8710, 0x267bf7e2, 1, 0x9a79f, 0x804, 0, 0xaeb35766);
  }

  lemma Steps4(x: seq<Word>)
    requires Alphabet(x) && Steps(32, INITIAL, x) == Registers(0xf54d8710, 0xaeb35766, 0x2e69afc7, 0x927b72e2)
    ensures Steps(40, INITIAL, x) == Registers(0xb9c0c733, 0x8d41bf99, 0x23a9451b, 0xf1e6dc7a)
  {
    Powers();
    Mixes4();
    hide Steps, Pow2, Mix;
    Advance(32, x, 0xf54d8710, 0xaeb35766, 0x2e69afc7, 0x927b72e2, 0x12a18a43, 2, 8, 0x60c10a, 0, 0xb4bf680e);
    Advance(33, x, 0x927b72e2, 0xb4bf680e, 0xaeb35766, 0x2e69afc7, 0x346590af, 1, 0x272, 0x12fa12, 1, 0x4c8ffa80);
    Advance(34, x, 0x2e69afc7, 0x4c8ffa80, 0xb4bf680e, 0xaeb35766, 0x5683c5e8, 0, 0xf28a, 0xd6d1, 1, 0x2361ed0a);
    Advance(35, x, 0xaeb35766, 0x2361ed0a, 0x4c8ffa80, 0xb4bf680e, 0xdb517f84, 2, 0x43f507, 0x1c6, 1, 0x6a5e211);
    Advance(36, x, 0xb4bf680e, 0x6a5e211, 0x2361ed0a, 0x4c8ffa80, 0x694bf59b, 2, 2, 0xb31ae52, 0, 0xb9c0c733);
    Advance(37, x, 0x4c8ffa80, 0xb9c0c733, 0x6a5e211, 0x2361ed0a, 0x9c04c828, 1, 0x547, 0x704c2, 0, 0xf1e6dc7a);
    Advance(38, x, 0x2361ed0a, 0xf1e6dc7a, 0xb9c0c733, 0x6a5e211, 0x4e83f958, 1, 0x68a1, 0x31c2, 1, 0x23a9451b);
    Advance(39, x, 0x6a5e211, 0x23a9451b, 0xf1e6dc7a, 0xb9c0c733, 0x6b8f5e52, 1, 0x187a7e, 0xd3, 0, 0x8d41bf99);
  }

  lemma Steps5(x: seq<Word>)
    requires Alphabet(x) && Steps(40, INITIAL, x) == Registers(0xb9c0c733, 0x8d41bf99, 0x23a9451b, 0xf1e6dc7a)
    ensures Steps(48, INITIAL, x) == Registers(0xb5d41f9c, 0x71d10367, 0x703d54d8, 0xa04b4904)
  {
    Powers();
    Mixes5();
    hide Steps, Pow2, Mix;
    Advance(40, x, 0xb9c0c733, 0x8d41bf99, 0x23a9451b, 0xf1e6dc7a, 0x5f0e26f8, 1, 4, 0x16a6cf1, 0, 0xa3e88ead);
    Advance(41, x, 0xf1e6dc7a, 0xa3e88ead, 0x8d41bf99, 0x23a9451b, 0xd00742f, 2, 0x26f, 0xbdb04, 1, 0x2c0b11c);
    Advance(42, x, 0x23a9451b, 0x2c0b11c, 0xa3e88ead, 0x8d41bf99, 0x2c698028, 1, 0x9571, 0x6435, 0, 0x66f6468d);
    Advance(43, x, 0x8d41bf99, 0x66f6468d, 0x2c0b11c, 0xa3e88ead, 0xc7de793c, 1, 0x2d1468, 0x53, 0, 0x90a35af5);
    Advance(44, x, 0xa3e88ead, 0x90a35af5, 0x66f6468d, 0x2c0b11c, 0xf495ad64, 2, 7, 0x2530c4a, 0, 0xb5d41f9c);
    Advance(45, x, 0x2c0b11c, 0xb5d41f9c, 0x90a35af5, 0x66f6468d, 0x438103e4, 1, 0x168, 0x1d4ee5, 1, 0xa04b4904);
    Advance(46, x, 0x66f6468d, 0xa04b4904, 0xb5d41f9c, 0x90a35af5, 0x853c0c6d, 1, 0xbd4, 0xcff2, 1, 0x703d54d8);
    Advance(47, x, 0x90a35af5, 0x703d54d8, 0xa04b4904, 0xb5d41f9c, 0x65a20240, 2, 0x13ae8f, 3, 0, 0x71d10367);
  }

  lemma Steps6(x: seq<Word>)
    requires Alphabet(x) && Steps(48, INITIAL, x) == Registers(0xb5d41f9c, 0x71d10367, 0x703d54d8, 0xa04b4904)
    ensures Steps(56, INITIAL, x) == Registers(0xc1e942f1, 0x83877d1b, 0x23a68048, 0xd9bb987c)
  {
    Powers();
    Mixes6();
    hide Steps, Pow2, Mix;
    Advance(48, x, 0xb5d41f9c, 0x71d10367, 0x703d54d8, 0xa04b4904, 0xfc8e327, 2, 7, 0x2298768, 0, 0xfc32dd6e);
    Advance(49, x, 0xa04b4904, 0xfc32dd6e, 0x71d10367, 0x703d54d8, 0x8e23fc08, 1, 0x1c6, 0x1a44a3, 1, 0x65456b34);
    Advance(50, x, 0x703d54d8, 0x65456b34, 0xfc32dd6e, 0x71d10367, 0x135d22d2, 1, 0x1797, 0x9c21, 0, 0xb35602cb);
    Advance(51, x, 0x71d10367, 0xb35602cb, 0x65456b34, 0xfc32dd6e, 0xd69a49ef, 2, 0x17aecc, 0x404, 1, 0x33edb197);
    Advance(52, x, 0xfc32dd6e, 0x33edb197, 0xb35602cb, 0x65456b34, 0x8a9b714, 1, 0x1a, 0x237ee45, 0, 0xc1e942f1);
    Advance(53, x, 0x65456b34, 0xc1e942f1, 0x33edb197, 0xb35602cb, 0xfe044e62, 2, 0x18b, 0x5f495, 0, 0xd9bb987c);
    Advance(54, x, 0xb35602cb, 0xd9bb987c, 0xc1e942f1, 0x33edb197, 0x1c529c8d, 1, 0x67cc, 0x93d5, 1, 0x23a68048);
    Advance(55, x, 0x33edb197, 0x23a68048, 0xd9bb987c, 0xc1e942f1, 0xe60d2532, 2, 0xfcd3, 0x2ff, 0, 0x83877d1b);
  }

  lemma Steps7(x: seq<Word>)
    requires Alphabet(x) && Steps(56, INITIAL, x) == Registers(0xc1e942f1, 0x83877d1b, 0x23a68048, 0xd9bb987c)
    ensures Steps(64, INITIAL, x) == Registers(0x708ed9c2, 0x1116e6d8, 0xd38f1e7f, 0x2baf1354)
  {
    Powers();
    Mixes7();
    hide Steps, Pow2, Mix;
    Advance(56, x, 0xc1e942f1, 0x83877d1b, 0x23a68048, 0xd9bb987c, 0x8461ffd3, 1, 0x2d, 0x1f3c113, 1, 0x77c208);
    Advance(57, x, 0xd9bb987c, 0x77c208, 0x83877d1b, 0x23a68048, 0x5ff882a4, 2, 0xdf, 0x210200, 0, 0x847fc2e7);
    Advance(58, x, 0x23a68048, 0x847fc2e7, 0x77c208, 0x83877d1b, 0xfc0800ef, 1, 0x6198, 0x3ec4, 0, 0xa3e2247f);
    Advance(59, x, 0x83877d1b, 0xa3e2247f, 0x847fc2e7, 0x77c208, 0x7b95ff18, 1, 0x9a4b1, 0x5d4, 1, 0x5e6bc930);
    Advance(60, x, 0x77c208, 0x5e6bc930, 0xa3e2247f, 0x847fc2e7, 0xdc09d947, 2, 0x12, 0x488c42, 0, 0x708ed9c2);
    Advance(61, x, 0x847fc2e7, 0x708ed9c2, 0x5e6bc930, 0xa3e2247f, 0x22f412f2, 1, 0x192, 0x2ec80e, 1, 0x2baf1354);
    Advance(62, x, 0xa3e2247f, 0x2baf1354, 0x708ed9c2, 0x5e6bc930, 0xdb31ee1d, 2, 0xb2b, 0x14fc0, 0, 0xd38f1e7f);
    Advance(63, x, 0x5e6bc930, 0xd38f1e7f, 0x2baf1354, 0x708ed9c2, 0xf4502d2b, 2, 0x7c859, 0x1ec, 1, 0x1116e6d8);
  }

  // ---- The digest ----

  /** "abcdefghijklmnopqrstuvwxyz" */
  function Letters(): (m: seq<Byte>)
    ensures |m| == 26
  {
    seq(26, k requires 0 <= k < 26 => 0x61 + k)
  }

  lemma {:induction false} DecodedWord(bs: seq<Byte>, k: nat)
    requires |bs| % 4 == 0 && 4 * k < |bs|
    ensures 4 * k + 4 <= |bs|
    ensures DecodeWords(bs)[k] == bs[4 * k] as int + 0x100 * (bs[4 * k + 1] as int)
                                  + 0x1_0000 * (bs[4 * k + 2] as int) + 0x100_0000 * (bs[4 * k + 3] as int)
    decreases |bs|
  {
    var front := bs[..|bs| - 4];
    if 4 * k < |front| {
      DecodedWord(front, k);
    }
  }

  /** The padded letters: 26 bytes, a one bit, zeros, and 208 bits as the length. */
  lemma PaddedLetters(k: nat)
    requires k < 64
    ensures var p := Padded(Letters());
            |p| == 64 && p[k] == if k < 26 then 0x61 + k else if k == 26 then 0x80 else if k == 56 then 0xd0 else 0
  {
    EncodedTwo(0xd0, 0);
    assert BitLength(26) == [0xd0, 0];
    assert Bytes4(0xd0) == [0xd0, 0, 0, 0] && Bytes4(0) == [0, 0, 0, 0];
    assert (55 - 26) % 64 == 29;
  }

  lemma LettersAreAlphabet()
    ensures |Padded(Letters())| == 64 && Alphabet(DecodeWords(Padded(Letters())))
  {
    hide Padded, DecodeWords;
    var p := Padded(Letters());
    assert |p| == 64 by { PaddedLetters(0); }
    forall k | 0 <= k < 64
      ensures p[k] == if k < 26 then 0x61 + k else if k == 26 then 0x80 else if k == 56 then 0xd0 else 0
    {
      PaddedLetters(k);
    }
    forall k | 0 <= k < 16
      ensures DecodeWords(p)[k] == p[4 * k] as int + 0x100 * (p[4 * k + 1] as int)
                                   + 0x1_0000 * (p[4 * k + 2] as int) + 0x100_0000 * (p[4 * k + 3] as int)
    {
      DecodedWord(p, k);
    }
    hide Letters;
  }

  lemma FinalState(x: seq<Word>)
    requires Alphabet(x)
    ensures Steps(64, INITIAL, x) == Registers(0x708ed9c2, 0x1116e6d8, 0xd38f1e7f, 0x2baf1354)
  {
    hide Steps;
    assert Steps(0, INITIAL, x) == INITIAL by { NoSteps(x); }
    Steps0(x);
    Steps1(x);
    Steps2(x);
    Steps3(x);
    Steps4(x);
    Steps5(x);
    Steps6(x);
    Steps7(x);
  }

  lemma NoSteps(x: seq<Word>)
    requires |x| == 16
    ensures Steps(0, INITIAL, x) == INITIAL
  {
  }

  lemma FeedForward(block: seq<Byte>)
    requires |block| == 64 && Alphabet(DecodeWords(block))
    ensures Compress(INITIAL, block) == Registers(0xd7d3fcc3, 0xe49261, 0x6c49fb7d, 0x3be167ca)
  {
    hide Steps, DecodeWords, Alphabet;
    FinalState(DecodeWords(block));
  }

  /** MD5 ("abcdefghijklmnopqrstuvwxyz") = c3fcd3d76192e4007dfb496cca67e13b */
  lemma DigestOfAlphabet()
    ensures Digest(Letters()) == [0xc3, 0xfc, 0xd3, 0xd7, 0x61, 0x92, 0xe4, 0x00]
         + [0x7d, 0xfb, 0x49, 0x6c, 0xca, 0x67, 0xe1, 0x3b]
  {
    hide Compress, Padded, DecodeWords, Letters, Bytes4, EncodeWords, Alphabet;
    LettersAreAlphabet();
    var p := Padded(Letters());
    FeedForward(p);
    assert p[..64] == p;
    assert Absorb(INITIAL, p) == Compress(INITIAL, p);
    EncodedFour(0xd7d3fcc3, 0xe49261, 0x6c49fb7d, 0x3be167ca);
    DigestBytes();
  }

  lemma DigestBytes()
    ensures Bytes4(0xd7d3fcc3) == [0xc3, 0xfc, 0xd3, 0xd7]
    ensures Bytes4(0xe49261) == [0x61, 0x92, 0xe4, 0x00]
    ensures Bytes4(0x6c49fb7d) == [0x7d, 0xfb, 0x49, 0x6c]
    ensures Bytes4(0x3be167ca) == [0xca, 0x67, 0xe1, 0x3b]
  {
    BytesOfWord([0xc3, 0xfc, 0xd3, 0xd7]);
    BytesOfWord([0x61, 0x92, 0xe4, 0x00]);
    BytesOfWord([0x7d, 0xfb, 0x49, 0x6c]);
    BytesOfWord([0xca, 0x67, 0xe1, 0x3b]);
  }
}
