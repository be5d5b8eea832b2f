/** The G.711 codecs of Ab_arm_codec.c: what companding and expanding do to a sample.

    `>>` on a negative number is floor division, which is what `/` by a positive number means
    here; `& (2^n - 1)` is the remainder by 2^n; `|` joins a segment
    number and four bits that do not meet, which adds them; `~u` is -u - 1. */
module G711 {
  import opened Words

  const BIAS := 0x84
  const CLIP := 8159
  const SEG_AEND: seq<int> := [0x1F, 0x3F, 0x7F, 0xFF, 0x1FF, 0x3FF, 0x7FF, 0xFFF]
  const SEG_UEND: seq<int> := [0x3F, 0x7F, 0xFF, 0x1FF, 0x3FF, 0x7FF, 0xFFF, 0x1FFF]

  /** The first entry of the table that `val` does not exceed, or the table's size. */
  function Segment(val: int, table: seq<int>): (seg: nat)
    ensures seg <= |table|
    ensures forall k :: 0 <= k < seg ==> table[k] < val
    ensures seg < |table| ==> val <= table[seg]
    decreases |table|
  {
    if table == [] || val <= table[0] then 0 else 1 + Segment(val, table[1..])
  }

  method Search(val: int, table: seq<int>, size: nat) returns (seg: nat)
    requires size == |table|
    ensures seg == Segment(val, table)
  {
    for i := 0 to size
      invariant Segment(val, table) == i + Segment(val, table[i..])
    {
      if val <= table[i] {
        return i;
      }
      assert table[i..][1..] == table[i + 1..];
    }
    return size;
  }

  function Linear2Ulaw(pcm: int): (code: nat) {
    var shifted := pcm / 4;
    var mask := if shifted < 0 then 0x7F else 0xFF;
    var magnitude := if shifted < 0 then -shifted else shifted;
    UlawByte((if magnitude > CLIP then CLIP else magnitude) + BIAS / 4, mask)
  }

  /** The second half of linear2ulaw: segment, quantization bits and complement. */
  function UlawByte(biased: nat, mask: nat): (code: nat) {
    var seg := Segment(biased, SEG_UEND);
    if seg >= 8 then Xor(0x7F, mask) else Xor(16 * seg + Halved(biased, seg + 1) % 16, mask)
  }

  function Ulaw2Linear(code: Byte): int {
    var u := -(code as int) - 1;
    var t := Doubled(u % 16 * 8 + BIAS, u / 16 % 8);
    if u / 128 % 2 == 1 then BIAS - t else t - BIAS
  }

  function Linear2Alaw(pcm: int): (code: nat) {
    var shifted := pcm / 8;
    AlawByte(if shifted >= 0 then shifted else -shifted - 1, if shifted >= 0 then 0xD5 else 0x55)
  }

  /** The second half of linear2alaw: segment, quantization bits and sign mask. */
  function AlawByte(magnitude: nat, mask: nat): (code: nat) {
    var seg := Segment(magnitude, SEG_AEND);
    if seg >= 8 then Xor(0x7F, mask)
    else if seg < 2 then Xor(16 * seg + Halved(magnitude, 1) % 16, mask)
    else Xor(16 * seg + Halved(magnitude, seg) % 16, mask)
  }

  function Alaw2Linear(code: Byte): int {
    var a := Xor(code, 0x55);
    var seg := a / 16 % 8;
    var quant := a % 16 * 16;
    var t := if seg == 0 then quant + 8
             else if seg == 1 then quant + 0x108
             else Doubled(quant + 0x108, seg - 1);
    if a / 128 % 2 == 1 then t else -t
  }

  // ---- Segments as powers of two ----

  lemma SmallPowers()
    ensures Pow2(0) == 1 && Pow2(1) == 2 && Pow2(2) == 4 && Pow2(3) == 8 && Pow2(4) == 16
    ensures Pow2(5) == 32 && Pow2(6) == 64 && Pow2(7) == 128 && Pow2(8) == 256
  {
  }

  /** Segment s of the u-law table holds the biased magnitudes from 32 * 2^s up. */
  lemma UlawSegment(biased: int)
    requires 33 <= biased < 0x2000
    ensures var seg := Segment(biased, SEG_UEND);
            seg < 8 && 32 * Pow2(seg) <= biased < 64 * Pow2(seg)
  {
    SmallPowers();
    var seg := Segment(biased, SEG_UEND);
    assert SEG_UEND[7] == 0x1FFF;
    if seg > 0 {
      assert SEG_UEND[seg - 1] < biased;
    }
  }

  /** Segment s of the A-law table holds the magnitudes from 16 * 2^s up, and segment 0 the rest. */
  lemma AlawSegment(magnitude: int)
    requires 0 <= magnitude < 0x1000
    ensures var seg := Segment(magnitude, SEG_AEND);
            seg < 8 && (seg > 0 ==> 16 * Pow2(seg) <= magnitude) && magnitude < 32 * Pow2(seg)
  {
    SmallPowers();
    var seg := Segment(magnitude, SEG_AEND);
    assert SEG_AEND[7] == 0xFFF;
    if seg > 0 {
      assert SEG_AEND[seg - 1] < magnitude;
    }
  }

  /** The table search finds the only segment whose bounds hold the value. */
  lemma SegmentIsUnique(val: int, table: seq<int>, seg: nat)
    requires seg < |table| && val <= table[seg]
    requires forall k :: 0 <= k < seg ==> table[k] < val
    ensures Segment(val, table) == seg
  {
  }

  // ---- u-law ----

  /** The code word of a sign, a segment and a quantization value. */
  function UlawCode(negative: bool, seg: nat, q: nat): Byte
    requires seg < 8 && q < 16
  {
    (if negative then 0x7F else 0xFF) - 16 * seg - q
  }

  lemma EncodedFields(negative: bool, seg: nat, q: nat)
    requires seg < 8 && q < 16
    ensures Xor(16 * seg + q, if negative then 0x7F else 0xFF) == UlawCode(negative, seg, q)
  {
    SmallPowers();
    XorOnes(16 * seg + q, if negative then 7 else 8);
  }

  lemma DecodedFields(negative: bool, seg: nat, q: nat)
    requires seg < 8 && q < 16
    ensures var t := Doubled(8 * q + 132, seg);
            Ulaw2Linear(UlawCode(negative, seg, q)) == if negative then 132 - t else t - 132
  {
    hide Doubled;
    var code := UlawCode(negative, seg, q);
    var u := -(code as int) - 1;
    assert u % 16 == q && u / 16 % 8 == seg && (u / 128 % 2 == 1 <==> negative) by {
      var high := if negative then 8 else 16;
      DivModUnique(u, 16, seg - high, q);
      DivModUnique(seg - high, 8, if negative then -1 else -2, seg);
      DivModUnique(u, 128, if negative then -1 else -2, 16 * seg + q);
    }
  }

  /** Every byte is the code word of some fields. */
  lemma FieldsOfByte(code: Byte) returns (negative: bool, seg: nat, q: nat)
    ensures seg < 8 && q < 16 && code == UlawCode(negative, seg, q)
  {
    negative := code < 0x80;
    var bits := (if negative then 0x7F else 0xFF) - code;
    seg, q := bits / 16, bits % 16;
  }

  /** The magnitude that selects the code: the biased magnitude, cut off at the end of the table. */
  function UlawBiased(pcm: int): (b: nat)
    ensures 33 <= b < 0x2000
  {
    var shifted := pcm / 4;
    var magnitude := if shifted < 0 then -shifted else shifted;
    if magnitude + 33 < 0x2000 then magnitude + 33 else 0x1FFF
  }

  function UlawSeg(biased: nat): (seg: nat)
    requires 33 <= biased < 0x2000
    ensures seg < 8 && 32 * Pow2(seg) <= biased < 64 * Pow2(seg)
  {
    UlawSegment(biased);
    Segment(biased, SEG_UEND)
  }

  /** The middle of the quantization step that holds `biased`, steps of segment s being 2 * 2^s wide. */
  function UlawMiddle(biased: nat): int
    requires 33 <= biased < 0x2000
  {
    var p := Pow2(UlawSeg(biased));
    biased / (2 * p) * (2 * p) + p
  }

  function UlawQuant(biased: nat): (q: nat)
    requires 33 <= biased < 0x2000
    ensures q < 16
  {
    Halved(biased, UlawSeg(biased) + 1) % 16
  }

  /** A step number of a segment lies between 16 and 31. */
  lemma StepNumber(b: nat, p: nat)
    requires p > 0 && 32 * p <= b < 64 * p
    ensures 16 <= b / (2 * p) < 32 && b / (2 * p) % 16 == b / (2 * p) - 16
  {
    var k, w := b / (2 * p), 2 * p;
    assert b == w * k + b % w;
    MultipleIsFar(w, k - 31);
    MultipleIsFar(w, 16 - k);
    assert w * (k - 31) == w * k - 31 * w && w * (16 - k) == 16 * w - w * k;
  }

  lemma EncodedMagnitude(biased: nat, negative: bool)
    requires 33 <= biased <= 0x2000
    ensures var b := if biased < 0x2000 then biased else 0x1FFF;
            UlawByte(biased, if negative then 0x7F else 0xFF) == UlawCode(negative, UlawSeg(b), UlawQuant(b))
  {
    hide Segment, Xor, Halved, Pow2;
    if biased < 0x2000 {
      EncodedFields(negative, UlawSeg(biased), UlawQuant(biased));
    } else {
      LastSegment();
      EncodedFields(negative, 7, 15);
    }
  }

  lemma EncodedUlaw(pcm: int)
    ensures var b := UlawBiased(pcm);
            Linear2Ulaw(pcm) == UlawCode(pcm / 4 < 0, UlawSeg(b), UlawQuant(b))
  {
    hide UlawByte, UlawSeg, UlawQuant;
    var shifted := pcm / 4;
    var magnitude := if shifted < 0 then -shifted else shifted;
    EncodedMagnitude((if magnitude > CLIP then CLIP else magnitude) + 33, shifted < 0);
  }

  /** A clipped magnitude lies past the table, which gives the code of the table's last step. */
  lemma LastSegment()
    ensures UlawSeg(0x1FFF) == 7 && UlawQuant(0x1FFF) == 15
    ensures Segment(0x2000, SEG_UEND) == 8
  {
    SmallPowers();
    assert SEG_UEND[7] == 0x1FFF;
    SegmentIsUnique(0x1FFF, SEG_UEND, 7);
    var seg := Segment(0x2000, SEG_UEND);
    assert forall k :: 0 <= k < 8 ==> SEG_UEND[k] < 0x2000;
  }

  /** Encoding and decoding a sample puts it in the middle of its step. */
  lemma UlawDecodesToMiddle(pcm: int)
    ensures Linear2Ulaw(pcm) < 0x100
    ensures var level := 4 * UlawMiddle(UlawBiased(pcm)) - 132;
            Ulaw2Linear(Linear2Ulaw(pcm)) == if pcm / 4 < 0 then -level else level
  {
    hide Linear2Ulaw, Ulaw2Linear, Pow2, Segment;
    var b := UlawBiased(pcm);
    var seg := UlawSeg(b);
    var p := Pow2(seg);
    EncodedUlaw(pcm);
    DecodedFields(pcm / 4 < 0, seg, UlawQuant(b));
    HalvedIsQuotient(b, seg + 1);
    assert Pow2(seg + 1) == 2 * p by { PowerStep(seg); }
    StepNumber(b, p);
    DoubledIsProduct(8 * UlawQuant(b) + 132, seg);
    MiddleOfStep(b / (2 * p), p);
  }

  lemma PowerStep(n: nat)
    ensures Pow2(n + 1) == 2 * Pow2(n)
  {
  }

  lemma MiddleOfStep(k: int, p: int)
    ensures (8 * (k - 16) + 132) * p == 4 * (k * (2 * p) + p)
  {
  }

  function Abs(x: int): nat {
    if x < 0 then -x else x
  }

  /** A value is at most half a step from the middle of its step, which lies in the same segment. */
  lemma MiddleIsNear(b: nat)
    requires 33 <= b < 0x2000
    ensures var p := Pow2(UlawSeg(b));
            b - p <= UlawMiddle(b) <= b + p && 33 * p <= UlawMiddle(b) < 64 * p
  {
    hide UlawSeg;
    var p := Pow2(UlawSeg(b));
    var k, w := b / (2 * p), 2 * p;
    assert b == w * k + b % w;
    StepNumber(b, p);
    ProductMonotone(w, 16, k);
    ProductMonotone(w, k, 31);
    hide Pow2;
  }

  /** The decoded magnitude is within 2^(s+2) of the magnitude encoded, s being the segment in
      the code. */
  lemma UlawError(pcm: int)
    ensures Linear2Ulaw(pcm) < 0x100
    ensures var m := Min(Abs(pcm / 4), 8159);
            var code := Linear2Ulaw(pcm);
            var seg := (if pcm / 4 < 0 then 0x7F - code else 0xFF - code) / 16;
            0 <= seg < 8 && Abs(Abs(Ulaw2Linear(code)) - 4 * m) <= Pow2(seg + 2)
  {
    hide Linear2Ulaw, Ulaw2Linear, UlawMiddle, UlawQuant, UlawSeg, Pow2;
    var b := UlawBiased(pcm);
    var code, s := Linear2Ulaw(pcm), UlawSeg(b);
    EncodedUlaw(pcm);
    UlawDecodesToMiddle(pcm);
    assert (if pcm / 4 < 0 then 0x7F - code else 0xFF - code) == 16 * s + UlawQuant(b);
    assert Abs(Ulaw2Linear(code)) == 4 * UlawMiddle(b) - 132 by { MiddleIsNear(b); }
    LevelIsNear(pcm);
  }

  lemma LevelIsNear(pcm: int)
    ensures var b := UlawBiased(pcm);
            Abs(4 * UlawMiddle(b) - 132 - 4 * Min(Abs(pcm / 4), 8159)) <= Pow2(UlawSeg(b) + 2)
  {
    hide UlawMiddle, UlawSeg, Pow2;
    var b := UlawBiased(pcm);
    MiddleIsNear(b);
    PowerStep(UlawSeg(b));
    PowerStep(UlawSeg(b) + 1);
    if b == 0x1FFF {
      LastMiddle();
    }
  }

  lemma LastMiddle()
    ensures UlawSeg(0x1FFF) == 7 && Pow2(7) == 128 && UlawMiddle(0x1FFF) == 8064
  {
    LastSegment();
    SmallPowers();
  }

  lemma MiddleIsMonotone(b: nat, c: nat)
    requires 33 <= b <= c < 0x2000
    ensures UlawMiddle(b) <= UlawMiddle(c)
  {
    hide UlawSeg, Pow2;
    SegmentIsMonotone(b, c);
    if UlawSeg(b) == UlawSeg(c) {
      QuotientMonotone(b, c, 2 * Pow2(UlawSeg(b)));
    } else {
      hide UlawMiddle;
      MiddleIsNear(b);
      MiddleIsNear(c);
      PowerStep(UlawSeg(b));
      PowerMonotone(UlawSeg(b) + 1, UlawSeg(c));
    }
  }

  lemma SegmentIsMonotone(b: nat, c: nat)
    requires 33 <= b <= c < 0x2000
    ensures UlawSeg(b) <= UlawSeg(c)
  {
    hide UlawSeg, Pow2;
    var s, t := UlawSeg(b), UlawSeg(c);
    PowerStep(t);
    if t < s {
      PowerMonotone(t + 1, s);
      assert false;
    }
  }

  lemma QuotientMonotone(x: nat, y: nat, d: nat)
    requires d > 0 && x <= y
    ensures x / d <= y / d && x / d * d <= y / d * d
  {
    assert x == d * (x / d) + x % d && y == d * (y / d) + y % d;
    MultipleIsFar(d, x / d - y / d);
    assert d * (x / d - y / d) == d * (x / d) - d * (y / d);
    ProductMonotone(d, x / d, y / d);
  }

  lemma {:induction false} PowerMonotone(m: nat, n: nat)
    requires m <= n
    ensures Pow2(m) <= Pow2(n)
    decreases n
  {
    if m < n {
      PowerMonotone(m, n - 1);
    }
  }

  /** Companding and expanding keeps the order of samples. */
  lemma UlawIsMonotone(x: int, y: int)
    requires x <= y
    ensures Linear2Ulaw(x) < 0x100 && Linear2Ulaw(y) < 0x100
    ensures Ulaw2Linear(Linear2Ulaw(x)) <= Ulaw2Linear(Linear2Ulaw(y))
  {
    hide Linear2Ulaw, Ulaw2Linear, UlawMiddle, UlawSeg;
    var b, c := UlawBiased(x), UlawBiased(y);
    UlawDecodesToMiddle(x);
    UlawDecodesToMiddle(y);
    MiddleIsNear(b);
    MiddleIsNear(c);
    assert UlawMiddle(b) >= 33 && UlawMiddle(c) >= 33;
    if b <= c {
      MiddleIsMonotone(b, c);
    } else {
      MiddleIsMonotone(c, b);
    }
  }

  /** What u-law means by a byte: a sign and a level. */
  lemma UlawLevel(negative: bool, seg: nat, q: nat)
    requires seg < 8 && q < 16
    ensures var level := 4 * ((q + 16) * (2 * Pow2(seg)) + Pow2(seg)) - 132;
            && 0 <= level <= 32124 && (level == 0 <==> seg == 0 && q == 0)
            && Ulaw2Linear(UlawCode(negative, seg, q)) == if negative then -level else level
  {
    hide Ulaw2Linear, UlawCode;
    DecodedFields(negative, seg, q);
    DoubledIsProduct(8 * q + 132, seg);
    MiddleOfStep(q + 16, Pow2(seg));
    LevelBounds(seg, q);
  }

  lemma LevelBounds(seg: nat, q: nat)
    requires seg < 8 && q < 16
    ensures var level := 4 * ((q + 16) * (2 * Pow2(seg)) + Pow2(seg)) - 132;
            0 <= level <= 32124 && (level == 0 <==> seg == 0 && q == 0)
  {
    var p := Pow2(seg);
    SmallPowers();
    PowerMonotone(seg, 7);
    PowerMonotone(0, seg);
    ProductMonotone(2 * p, 16, q + 16);
    ProductMonotone(2 * p, q + 16, 31);
    if seg > 0 {
      PowerMonotone(1, seg);
    }
  }

  /** Every byte but negative zero survives decoding and encoding; negative zero becomes zero. */
  lemma UlawByteRoundTrip(code: Byte)
    ensures Linear2Ulaw(Ulaw2Linear(code)) == if code == 0x7F then 0xFF else code
  {
    hide Linear2Ulaw, Ulaw2Linear, UlawSeg, UlawQuant;
    var negative, seg, q := FieldsOfByte(code);
    UlawLevel(negative, seg, q);
    var pcm := Ulaw2Linear(code);
    var p := Pow2(seg);
    var b := (q + 16) * (2 * p) + p;
    assert Abs(pcm / 4) == b - 33;
    assert UlawBiased(pcm) == b;
    EncodedUlaw(pcm);
    FieldsOfMiddle(seg, q);
  }

  lemma FieldsOfMiddle(seg: nat, q: nat)
    requires seg < 8 && q < 16
    ensures var b := (q + 16) * (2 * Pow2(seg)) + Pow2(seg);
            33 <= b < 0x2000 && UlawSeg(b) == seg && UlawQuant(b) == q
  {
    hide Pow2, UlawSeg, UlawQuant;
    LevelBounds(seg, q);
    StepRange(q + 16, Pow2(seg));
    var b := (q + 16) * (2 * Pow2(seg)) + Pow2(seg);
    SegOfRange(b, seg);
    QuantOfStep(b);
  }

  lemma StepRange(k: nat, p: nat)
    requires 16 <= k < 32 && p > 0
    ensures var b := k * (2 * p) + p; 32 * p <= b < 64 * p && b / (2 * p) == k
  {
    ProductMonotone(2 * p, 16, k);
    ProductMonotone(2 * p, k, 31);
    DivModUnique(k * (2 * p) + p, 2 * p, k, p);
  }

  lemma SegOfRange(b: nat, seg: nat)
    requires 33 <= b < 0x2000 && 32 * Pow2(seg) <= b < 64 * Pow2(seg)
    ensures UlawSeg(b) == seg
  {
    hide UlawSeg;
    if UlawSeg(b) < seg {
      PowerMonotone(UlawSeg(b) + 1, seg);
      assert false;
    } else if seg < UlawSeg(b) {
      PowerMonotone(seg + 1, UlawSeg(b));
      assert false;
    }
  }

  lemma QuantOfStep(b: nat)
    requires 33 <= b < 0x2000
    ensures UlawQuant(b) == b / (2 * Pow2(UlawSeg(b))) - 16
  {
    hide UlawSeg;
    var s := UlawSeg(b);
    HalvedIsQuotient(b, s + 1);
    PowerStep(s);
    StepNumber(b, Pow2(s));
  }

  /** Encoding what was decoded changes nothing more. */
  lemma UlawIsIdempotent(pcm: int)
    ensures Linear2Ulaw(pcm) < 0x100 && Linear2Ulaw(pcm) != 0x7F
    ensures Linear2Ulaw(Ulaw2Linear(Linear2Ulaw(pcm))) == Linear2Ulaw(pcm)
  {
    hide Linear2Ulaw, Ulaw2Linear, UlawSeg, UlawQuant;
    var b := UlawBiased(pcm);
    EncodedUlaw(pcm);
    UlawByteRoundTrip(Linear2Ulaw(pcm));
    if pcm / 4 < 0 {
      NoNegativeZero(b);
    }
  }

  /** A negative sample is at least one quarter-unit away from zero, so it has some bit set. */
  lemma NoNegativeZero(b: nat)
    requires 34 <= b < 0x2000
    ensures UlawSeg(b) != 0 || UlawQuant(b) != 0
  {
    QuantOfStep(b);
    SmallPowers();
  }

  /** The levels of the 256 codes: a code is the complement of a sign bit, three segment bits and four
      quantization bits. Silence has the code 0xFF. */
  lemma UlawLevels(code: Byte)
    ensures var bits := 255 - code;
            var level := (8 * (bits % 16) + 132) * Pow2(bits / 16 % 8) - 132;
            Ulaw2Linear(code) == if code >= 128 then level else -level
    ensures Linear2Ulaw(0) == 0xFF
  {
    hide Ulaw2Linear, Linear2Ulaw, Pow2;
    UlawLevelOf(code);
    UlawLevelOf(0xFF);
    UlawByteRoundTrip(0xFF);
    FirstPower();
  }

  lemma FirstPower()
    ensures Pow2(0) == 1
  {
  }

  lemma UlawLevelOf(code: Byte)
    ensures var bits := 255 - code;
            var level := (8 * (bits % 16) + 132) * Pow2(bits / 16 % 8) - 132;
            Ulaw2Linear(code) == if code >= 128 then level else -level
  {
    hide Ulaw2Linear, Doubled, Pow2;
    var negative, seg, q := FieldsOfByte(code);
    DecodedFields(negative, seg, q);
    DoubledIsProduct(8 * q + 132, seg);
    BitFields(if negative then 1 else 0, seg, q);
  }

  /** A byte's sign bit, segment bits and quantization bits. */
  lemma BitFields(sign: nat, seg: nat, q: nat)
    requires sign < 2 && seg < 8 && q < 16
    ensures var bits := 128 * sign + 16 * seg + q;
            bits % 16 == q && bits / 16 % 8 == seg && bits / 128 % 2 == sign && (bits >= 128 <==> sign == 1)
  {
    var bits := 128 * sign + 16 * seg + q;
    DivModUnique(bits, 16, 8 * sign + seg, q);
    DivModUnique(8 * sign + seg, 8, sign, seg);
    DivModUnique(bits, 128, sign, 16 * seg + q);
  }

  // ---- A-law ----

  function AlawCode(negative: bool, seg: nat, q: nat): (code: Byte)
    requires seg < 8 && q < 16
  {
    SmallPowers();
    OrXorBound(16 * seg + q + (if negative then 0 else 0x80), 0x55, 8);
    Xor(16 * seg + q + (if negative then 0 else 0x80), 0x55)
  }

  lemma AlawEncodedFields(negative: bool, seg: nat, q: nat)
    requires seg < 8 && q < 16
    ensures Xor(16 * seg + q, if negative then 0x55 else 0xD5) == AlawCode(negative, seg, q)
  {
    SmallPowers();
    XorHighBit(16 * seg + q, 0x55, 7);
  }

  /** The level of a segment and a quantization value: the middle of a step 16 units wide in
      segments 0 and 1, and twice as wide in every further one. */
  function AlawLevel(seg: nat, q: nat): int
    requires seg < 8 && q < 16
  {
    var p := Pow2(if seg < 2 then 1 else seg);
    8 * ((if seg == 0 then q else q + 16) * p) + 4 * p
  }

  lemma AlawDecodedFields(negative: bool, seg: nat, q: nat)
    requires seg < 8 && q < 16
    ensures Alaw2Linear(AlawCode(negative, seg, q))
         == if negative then -AlawLevel(seg, q) else AlawLevel(seg, q)
  {
    var a := 16 * seg + q + (if negative then 0 else 0x80);
    hide Xor, Doubled, AlawLevel;
    XorTwice(a, 0x55);
    assert a % 16 == q && a / 16 % 8 == seg && (a / 128 % 2 == 1 <==> !negative) by {
      DivModUnique(a, 16, seg + (if negative then 0 else 8), q);
      DivModUnique(a, 128, if negative then 0 else 1, 16 * seg + q);
    }
    AlawLevelIsShift(seg, q);
  }

  lemma AlawLevelIsShift(seg: nat, q: nat)
    requires seg < 8 && q < 16
    ensures AlawLevel(seg, q) == if seg == 0 then q * 16 + 8
                                 else if seg == 1 then q * 16 + 0x108
                                 else Doubled(q * 16 + 0x108, seg - 1)
  {
    SmallPowers();
    if seg >= 2 {
      DoubledIsProduct(q * 16 + 0x108, seg - 1);
      PowerStep(seg - 1);
      AlawMiddle(q, Pow2(seg - 1));
    }
  }

  lemma AlawMiddle(q: int, h: int)
    ensures (q * 16 + 0x108) * h == 8 * ((q + 16) * (2 * h)) + 4 * (2 * h)
  {
  }

  /** Every byte is the A-law code of some fields. */
  lemma AlawFieldsOfByte(code: Byte) returns (negative: bool, seg: nat, q: nat)
    ensures seg < 8 && q < 16 && code == AlawCode(negative, seg, q)
  {
    SmallPowers();
    OrXorBound(code, 0x55, 8);
    XorTwice(code, 0x55);
    var a := Xor(code, 0x55);
    negative := a < 0x80;
    var bits := if negative then a else a - 0x80;
    seg, q := bits / 16, bits % 16;
    hide Xor;
  }

  /** The magnitude that selects the code, cut off at the end of the table. */
  function AlawMagnitude(pcm: int): (v: nat)
    ensures v < 0x1000
  {
    var shifted := pcm / 8;
    var magnitude := if shifted >= 0 then shifted else -shifted - 1;
    if magnitude < 0x1000 then magnitude else 0xFFF
  }

  function AlawSeg(v: nat): (seg: nat)
    requires v < 0x1000
    ensures seg < 8 && (seg > 0 ==> 16 * Pow2(seg) <= v) && v < 32 * Pow2(seg)
  {
    AlawSegment(v);
    Segment(v, SEG_AEND)
  }

  function AlawQuant(v: nat): (q: nat)
    requires v < 0x1000
    ensures q < 16
  {
    var seg := AlawSeg(v);
    Halved(v, if seg < 2 then 1 else seg) % 16
  }

  lemma EncodedAlaw(pcm: int)
    ensures var v := AlawMagnitude(pcm);
            Linear2Alaw(pcm) == AlawCode(pcm / 8 < 0, AlawSeg(v), AlawQuant(v))
  {
    var shifted := pcm / 8;
    AlawEncodedMagnitude(if shifted >= 0 then shifted else -shifted - 1, shifted < 0);
  }

  lemma AlawEncodedMagnitude(magnitude: nat, negative: bool)
    ensures var v := if magnitude < 0x1000 then magnitude else 0xFFF;
            AlawByte(magnitude, if negative then 0x55 else 0xD5) == AlawCode(negative, AlawSeg(v), AlawQuant(v))
  {
    hide Xor, Halved, Pow2, Segment, AlawCode;
    if magnitude < 0x1000 {
      AlawEncodedFields(negative, AlawSeg(magnitude), AlawQuant(magnitude));
    } else {
      AlawLastSegment(magnitude);
      AlawEncodedFields(negative, 7, 15);
    }
  }

  lemma AlawLastSegment(magnitude: nat)
    requires magnitude >= 0x1000
    ensures AlawSeg(0xFFF) == 7 && AlawQuant(0xFFF) == 15
    ensures Segment(magnitude, SEG_AEND) == 8
  {
    SmallPowers();
    assert SEG_AEND[7] == 0xFFF;
    SegmentIsUnique(0xFFF, SEG_AEND, 7);
    var seg := Segment(magnitude, SEG_AEND);
    assert forall k :: 0 <= k < 8 ==> SEG_AEND[k] < 0x1000;
  }

  /** The middle of the step that holds a magnitude in eighths, in units of the sample. */
  function AlawMiddleOf(v: nat): int
    requires v < 0x1000
  {
    var p := AlawStep(v);
    8 * (v / p * p) + 4 * p
  }

  /** The width of that step: 2 in segments 0 and 1, then 2^s. */
  function AlawStep(v: nat): (p: nat)
    requires v < 0x1000
    ensures p > 0
  {
    Pow2(if AlawSeg(v) < 2 then 1 else AlawSeg(v))
  }

  lemma AlawQuantOfStep(v: nat)
    requires v < 0x1000
    ensures v / AlawStep(v) == if AlawSeg(v) == 0 then AlawQuant(v) else AlawQuant(v) + 16
  {
    hide AlawSeg;
    var seg, p := AlawSeg(v), AlawStep(v);
    HalvedIsQuotient(v, if seg < 2 then 1 else seg);
    SmallPowers();
    if seg >= 1 {
      AlawStepNumber(v, p);
    }
  }

  lemma AlawStepNumber(v: nat, p: nat)
    requires p > 0 && 16 * p <= v < 32 * p
    ensures 16 <= v / p < 32 && v / p % 16 == v / p - 16
  {
    var k := v / p;
    assert v == p * k + v % p;
    MultipleIsFar(p, k - 31);
    MultipleIsFar(p, 16 - k);
    assert p * (k - 31) == p * k - 31 * p && p * (16 - k) == 16 * p - p * k;
  }

  /** Encoding and decoding a sample puts it in the middle of its step. */
  lemma AlawDecodesToMiddle(pcm: int)
    ensures Linear2Alaw(pcm) < 0x100
    ensures var level := AlawMiddleOf(AlawMagnitude(pcm));
            Alaw2Linear(Linear2Alaw(pcm)) == if pcm / 8 < 0 then -level else level
  {
    hide Linear2Alaw, Alaw2Linear, AlawSeg, AlawQuant, Pow2;
    var v := AlawMagnitude(pcm);
    EncodedAlaw(pcm);
    AlawDecodedFields(pcm / 8 < 0, AlawSeg(v), AlawQuant(v));
    AlawQuantOfStep(v);
  }

  lemma AlawMiddleIsNear(v: nat)
    requires v < 0x1000
    ensures var p := AlawStep(v);
            && 8 * v - 4 * p + 8 <= AlawMiddleOf(v) <= 8 * v + 4 * p
            && 0 < AlawMiddleOf(v) < 8 * 32 * p
            && (AlawSeg(v) > 0 ==> 8 * 16 * p < AlawMiddleOf(v))
  {
    hide AlawSeg;
    var seg, p := AlawSeg(v), AlawStep(v);
    assert v == p * (v / p) + v % p;
    SmallPowers();
    AlawQuantOfStep(v);
    ProductMonotone(p, 0, v / p);
    ProductMonotone(p, v / p, 31);
    if seg > 0 {
      ProductMonotone(p, 16, v / p);
    }
  }

  /** Within the 16-bit range the decoded sample is within 2^(max(s, 1) + 2) of the original,
      s being the segment in the code. */
  lemma AlawError(pcm: int)
    requires -0x8000 <= pcm < 0x8000
    ensures Linear2Alaw(pcm) < 0x100
    ensures var code := Linear2Alaw(pcm);
            var seg := Xor(code, 0x55) / 16 % 8;
            Abs(Alaw2Linear(code) - pcm) <= Pow2((if seg < 1 then 1 else seg) + 2)
  {
    hide Linear2Alaw, Alaw2Linear, AlawSeg, AlawQuant, AlawMiddleOf, Pow2, Xor;
    var v := AlawMagnitude(pcm);
    var seg, q := AlawSeg(v), AlawQuant(v);
    AlawDecodesToMiddle(pcm);
    AlawMiddleIsNear(v);
    EncodedAlaw(pcm);
    var a := 16 * seg + q + (if pcm / 8 < 0 then 0 else 0x80);
    XorTwice(a, 0x55);
    assert a / 16 % 8 == seg;
    var h := if seg < 1 then 1 else seg;
    PowerStep(h);
    PowerStep(h + 1);
  }

  /** Every sample decodes to a magnitude between 8 and 32256, and beyond the 16-bit range to
      32256 itself. */
  lemma AlawSaturates(pcm: int)
    ensures Linear2Alaw(pcm) < 0x100
    ensures 8 <= Abs(Alaw2Linear(Linear2Alaw(pcm))) <= 32256
    ensures pcm >= 0x8000 ==> Alaw2Linear(Linear2Alaw(pcm)) == 32256
    ensures pcm < -0x8000 ==> Alaw2Linear(Linear2Alaw(pcm)) == -32256
  {
    hide Linear2Alaw, Alaw2Linear, AlawMiddleOf;
    var v := AlawMagnitude(pcm);
    AlawDecodesToMiddle(pcm);
    AlawTop();
    AlawMiddleIsMonotone(0, v);
    AlawMiddleIsMonotone(v, 0xFFF);
  }

  lemma AlawTop()
    ensures AlawMiddleOf(0) == 8 && AlawMiddleOf(0xFFF) == 32256
  {
    SmallPowers();
    AlawLastSegment(0x1000);
    assert AlawSeg(0) == 0;
  }

  lemma AlawMiddleIsMonotone(v: nat, w: nat)
    requires v <= w < 0x1000
    ensures AlawMiddleOf(v) <= AlawMiddleOf(w)
  {
    hide AlawSeg;
    var s, t := AlawSeg(v), AlawSeg(w);
    if s == t {
      QuotientMonotone(v, w, AlawStep(v));
    } else if s > t {
      PowerMonotone(t + 1, s);
      assert false;
    } else if t == 1 {
      QuotientMonotone(v, w, AlawStep(v));
    } else {
      PowerMonotone((if s < 2 then 1 else s) + 1, t);
      AlawMiddleIsNear(v);
      AlawMiddleIsNear(w);
    }
  }

  /** Companding and expanding keeps the order of samples. */
  lemma AlawIsMonotone(x: int, y: int)
    requires x <= y
    ensures Linear2Alaw(x) < 0x100 && Linear2Alaw(y) < 0x100
    ensures Alaw2Linear(Linear2Alaw(x)) <= Alaw2Linear(Linear2Alaw(y))
  {
    hide Linear2Alaw, Alaw2Linear, AlawMiddleOf, AlawSeg;
    var v, w := AlawMagnitude(x), AlawMagnitude(y);
    AlawDecodesToMiddle(x);
    AlawDecodesToMiddle(y);
    AlawMiddleIsNear(v);
    AlawMiddleIsNear(w);
    if v <= w {
      AlawMiddleIsMonotone(v, w);
    } else {
      AlawMiddleIsMonotone(w, v);
    }
  }

  /** A sample and its mirror image differ in the sign bit of the code alone. */
  lemma AlawIsMirrored(pcm: int)
    ensures Linear2Alaw(-pcm - 1) == Xor(Linear2Alaw(pcm), 0x80)
  {
    hide AlawSeg, AlawQuant, Linear2Alaw;
    var v := AlawMagnitude(pcm);
    assert AlawMagnitude(-pcm - 1) == v;
    EncodedAlaw(pcm);
    EncodedAlaw(-pcm - 1);
    SignBit(pcm / 8 < 0, AlawSeg(v), AlawQuant(v));
  }

  lemma SignBit(negative: bool, seg: nat, q: nat)
    requires seg < 8 && q < 16
    ensures AlawCode(!negative, seg, q) == Xor(AlawCode(negative, seg, q), 0x80)
  {
    hide Xor, Pow2;
    var bits := 16 * seg + q;
    SmallPowers();
    OrXorBound(bits, 0x55, 7);
    XorHighBit(bits, 0x55, 7);
    var low := Xor(bits, 0x55);
    XorHighBit(low, 0, 7);
    XorTwice(low, 0x80);
    XorZeroRight(low);
  }

  /** Encoding a decoded byte gives the byte back, for all 256 of them. */
  lemma AlawByteRoundTrip(code: Byte)
    ensures Linear2Alaw(Alaw2Linear(code)) == code
  {
    hide Linear2Alaw, Alaw2Linear, AlawSeg, AlawQuant, AlawCode, AlawLevel;
    var negative, seg, q := AlawFieldsOfByte(code);
    AlawDecodedFields(negative, seg, q);
    var pcm := Alaw2Linear(code);
    LevelInEighths(seg, q);
    var v := AlawLevel(seg, q) / 8;
    AlawFieldsOfMagnitude(seg, q, v);
    AlawFieldsOfMagnitude(seg, q, v - 1);
    assert AlawMagnitude(pcm) == if negative then v - 1 else v;
    EncodedAlaw(pcm);
  }

  predicate InStep(seg: nat, q: nat, v: int) {
    var p := Pow2(if seg < 2 then 1 else seg);
    var k := if seg == 0 then q else q + 16;
    k * p <= v < k * p + p
  }

  /** A level is a whole number of eighths, which with the number before it lies in its step. */
  lemma LevelInEighths(seg: nat, q: nat)
    requires seg < 8 && q < 16
    ensures var v := AlawLevel(seg, q) / 8;
            && AlawLevel(seg, q) == 8 * v && 1 <= v < 0x1000
            && InStep(seg, q, v) && InStep(seg, q, v - 1)
  {
    SmallPowers();
    var h := if seg < 2 then 1 else seg;
    var k, p := if seg == 0 then q else q + 16, Pow2(h);
    PowerStep(h - 1);
    PowerMonotone(h, 7);
    ProductMonotone(p, k, 31);
    ProductMonotone(p, 0, k);
    assert AlawLevel(seg, q) == 8 * (k * p + Pow2(h - 1));
  }

  lemma AlawFieldsOfMagnitude(seg: nat, q: nat, v: nat)
    requires seg < 8 && q < 16 && v < 0x1000 && InStep(seg, q, v)
    ensures AlawSeg(v) == seg && AlawQuant(v) == q
  {
    hide AlawSeg, AlawQuant;
    SmallPowers();
    var p := Pow2(if seg < 2 then 1 else seg);
    var k := if seg == 0 then q else q + 16;
    ProductMonotone(p, if seg == 0 then 0 else 16, k);
    ProductMonotone(p, k, if seg == 0 then 15 else 31);
    AlawSegOfRange(v, seg);
    DivModUnique(v, p, k, v - k * p);
    AlawQuantOfStep(v);
  }

  lemma AlawSegOfRange(v: nat, seg: nat)
    requires seg < 8 && v < 0x1000
    requires (seg > 0 ==> 16 * Pow2(seg) <= v) && v < 32 * Pow2(seg)
    ensures AlawSeg(v) == seg
  {
    hide AlawSeg;
    if AlawSeg(v) < seg {
      PowerMonotone(AlawSeg(v) + 1, seg);
      assert false;
    } else if seg < AlawSeg(v) {
      PowerMonotone(seg + 1, AlawSeg(v));
      assert false;
    }
  }

  /** The levels of the 256 codes: with the bits of 0x55 flipped, a code is a sign bit, three segment
      bits and four quantization bits. The smallest positive level, 8, has the code 0xD5. */
  lemma AlawLevels(code: Byte)
    ensures var bits := Xor(code, 0x55);
            var seg, q := bits / 16 % 8, bits % 16;
            var level := if seg == 0 then 16 * q + 8 else (16 * q + 264) * Pow2(seg - 1);
            Alaw2Linear(code) == if bits >= 128 then level else -level
    ensures Alaw2Linear(0xD5) == 8 && Linear2Alaw(8) == 0xD5
  {
    hide Alaw2Linear, Linear2Alaw, Pow2, Xor, Doubled;
    AlawLevelOf(code);
    AlawLevelOf(0xD5);
    assert Xor(0xD5, 0x55) == 0x80 by { PositiveZero(); }
    AlawByteRoundTrip(0xD5);
  }

  lemma PositiveZero()
    ensures Xor(0xD5, 0x55) == 0x80
  {
    SmallPowers();
    XorHighBit(0x55, 0x55, 7);
    XorTwice(0, 0x55);
    XorZeroLeft(0x55);
  }

  lemma {:induction false} XorZeroLeft(x: nat)
    ensures Xor(0, x) == x
  {
    if x != 0 {
      XorZeroLeft(x / 2);
    }
  }

  lemma AlawLevelOf(code: Byte)
    ensures var bits := Xor(code, 0x55);
            var seg, q := bits / 16 % 8, bits % 16;
            var level := if seg == 0 then 16 * q + 8 else (16 * q + 264) * Pow2(seg - 1);
            Alaw2Linear(code) == if bits >= 128 then level else -level
  {
    hide Alaw2Linear, AlawCode, AlawLevel, Xor, Doubled, Pow2;
    var negative, seg, q := AlawFieldsOfByte(code);
    AlawDecodedFields(negative, seg, q);
    AlawLevelIsShift(seg, q);
    AlawBits(negative, seg, q);
    if seg > 0 {
      DoubledIsProduct(q * 16 + 0x108, seg - 1);
    }
    FirstPower();
  }

  lemma AlawBits(negative: bool, seg: nat, q: nat)
    requires seg < 8 && q < 16
    ensures var bits := Xor(AlawCode(negative, seg, q), 0x55);
            bits % 16 == q && bits / 16 % 8 == seg && (bits >= 128 <==> !negative)
  {
    hide Xor;
    XorTwice(16 * seg + q + (if negative then 0 else 0x80), 0x55);
    BitFields(if negative then 0 else 1, seg, q);
  }
}
