/** The digest calculations of digcalc.c, proved to be those of section 3.2.2 of RFC 2617.

    A C string is modelled by the bytes before its terminating zero. */
module HttpDigest {
  import opened Words
  import Md5Spec
  import Md5

  const COLON: seq<Byte> := [0x3a]

  // ---- What RFC 2617 asks for ----

  function HexDigit(n: nat): (d: Byte)
    requires n < 16
  {
    if n <= 9 then n + 0x30 else n + 0x61 - 10
  }

  /** Bytes as lower-case hexadecimal digits, the high half first. */
  function Hex(b: seq<Byte>): (h: seq<Byte>)
    ensures |h| == 2 * |b|
  {
    if b == [] then [] else Hex(b[..|b| - 1]) + [HexDigit(b[|b| - 1] / 16), HexDigit(b[|b| - 1] % 16)]
  }

  function DigitValue(d: Byte): nat {
    if 0x61 <= d then d - 0x61 + 10 else if 0x30 <= d then d - 0x30 else 0
  }

  function Unhex(h: seq<Byte>): seq<int>
    requires |h| % 2 == 0
  {
    if h == [] then [] else Unhex(h[..|h| - 2]) + [16 * DigitValue(h[|h| - 2]) + DigitValue(h[|h| - 1])]
  }

  lemma DigitIsReadable(n: nat)
    requires n < 16
    ensures DigitValue(HexDigit(n)) == n
    ensures 0x30 <= HexDigit(n) <= 0x39 || 0x61 <= HexDigit(n) <= 0x66
  {
  }

  lemma {:induction false} OneByteMore(h: seq<Byte>, high: Byte, low: Byte)
    requires |h| % 2 == 0
    ensures Unhex(h + [high, low]) == Unhex(h) + [16 * DigitValue(high) + DigitValue(low)]
  {
    hide DigitValue;
    var all := h + [high, low];
    assert all[..|all| - 2] == h && all[|all| - 2] == high && all[|all| - 1] == low;
  }

  lemma NoBytes()
    ensures Hex([]) == [] && Unhex([]) == []
  {
  }

  /** The hexadecimal form determines the bytes, and uses only the sixteen digits. */
  lemma {:induction false} HexIsReadable(b: seq<Byte>)
    ensures Unhex(Hex(b)) == b
    ensures forall d :: d in Hex(b) ==> 0x30 <= d <= 0x39 || 0x61 <= d <= 0x66
  {
    hide HexDigit, DigitValue;
    if b != [] {
      var front, last := b[..|b| - 1], b[|b| - 1];
      assert Hex(b) == Hex(front) + [HexDigit(last / 16), HexDigit(last % 16)];
      hide Hex, Unhex;
      HexIsReadable(front);
      DigitIsReadable(last / 16);
      DigitIsReadable(last % 16);
      OneByteMore(Hex(front), HexDigit(last / 16), HexDigit(last % 16));
      assert last == 16 * (last / 16) + last % 16;
      assert b == front + [last];
    } else {
      NoBytes();
    }
  }

  function Join(parts: seq<seq<Byte>>): seq<Byte> {
    if parts == [] then []
    else if |parts| == 1 then parts[0]
    else Join(parts[..|parts| - 1]) + COLON + parts[|parts| - 1]
  }

  /** H(data): section 3.2.1 with the MD5 algorithm. */
  function H(data: seq<Byte>): seq<Byte> {
    Hex(Md5Spec.Digest(data))
  }

  function Lower(c: Byte): Byte {
    if 0x41 <= c <= 0x5a then c + 0x20 else c
  }

  /** Equality of strings up to the case of ASCII letters. */
  predicate SameIgnoringCase(s: seq<Byte>, t: seq<Byte>) {
    |s| == |t| && forall k :: 0 <= k < |s| ==> Lower(s[k]) == Lower(t[k])
  }

  /** "md5-sess" and "auth-int" */
  const MD5_SESS: seq<Byte> := [0x6d, 0x64, 0x35, 0x2d, 0x73, 0x65, 0x73, 0x73]
  const AUTH_INT: seq<Byte> := [0x61, 0x75, 0x74, 0x68, 0x2d, 0x69, 0x6e, 0x74]

  /** Section 3.2.2.2: A1, the md5-sess form being built from the sixteen raw digest bytes. */
  function A1(alg: seq<Byte>, user: seq<Byte>, realm: seq<Byte>, password: seq<Byte>,
              nonce: seq<Byte>, cnonce: seq<Byte>): seq<Byte> {
    var plain := Join([user, realm, password]);
    if SameIgnoringCase(alg, MD5_SESS) then Join([Md5Spec.Digest(plain), nonce, cnonce]) else plain
  }

  /** Section 3.2.2.3: A2. */
  function A2(qop: seq<Byte>, method_: seq<Byte>, uri: seq<Byte>, hEntity: seq<Byte>): seq<Byte> {
    if SameIgnoringCase(qop, AUTH_INT) then Join([method_, uri, hEntity]) else Join([method_, uri])
  }

  /** Section 3.2.2.1: what is hashed; without a qop, as in RFC 2069. */
  function ResponseText(hA1: seq<Byte>, nonce: seq<Byte>, nonceCount: seq<Byte>, cnonce: seq<Byte>,
                        qop: seq<Byte>, hA2: seq<Byte>): seq<Byte> {
    Join(if qop == [] then [hA1, nonce, hA2] else [hA1, nonce, nonceCount, cnonce, qop, hA2])
  }

  // ---- The same texts written out ----

  /** Digit by digit: the high half of byte k and then its low half, as the characters C prints. */
  lemma {:induction false} HexDigits(b: seq<Byte>, k: nat)
    requires k < |b|
    ensures Hex(b)[2 * k] == "0123456789abcdef"[b[k] / 16] as int
    ensures Hex(b)[2 * k + 1] == "0123456789abcdef"[b[k] % 16] as int
    decreases |b|
  {
    hide HexDigit;
    var front, last := b[..|b| - 1], b[|b| - 1];
    if k < |front| {
      HexDigits(front, k);
    } else {
      DigitIsCharacter(last / 16);
      DigitIsCharacter(last % 16);
    }
  }

  lemma DigitIsCharacter(n: nat)
    requires n < 16
    ensures HexDigit(n) == "0123456789abcdef"[n] as int
  {
  }

  /** The two names the code compares with, as it spells them. */
  lemma NamesAreSpelled()
    ensures |MD5_SESS| == |"md5-sess"| && forall k :: 0 <= k < 8 ==> MD5_SESS[k] == "md5-sess"[k] as int
    ensures |AUTH_INT| == |"auth-int"| && forall k :: 0 <= k < 8 ==> AUTH_INT[k] == "auth-int"[k] as int
  {
  }

  /** strcasecmp: at every place the same byte, or the small and the capital form of one letter. */
  predicate CaseOf(capital: Byte, small: Byte) {
    'A' as int <= capital <= 'Z' as int && small == capital + ('a' as int - 'A' as int)
  }

  lemma SameUpToCase(s: seq<Byte>, t: seq<Byte>)
    ensures SameIgnoringCase(s, t)
       <==> |s| == |t| && forall k :: 0 <= k < |s| ==> s[k] == t[k] || CaseOf(s[k], t[k]) || CaseOf(t[k], s[k])
  {
    forall k | 0 <= k < |s| && k < |t|
      ensures Lower(s[k]) == Lower(t[k]) <==> s[k] == t[k] || CaseOf(s[k], t[k]) || CaseOf(t[k], s[k])
    {
      SameLetter(s[k], t[k]);
    }
  }

  lemma SameLetter(c: Byte, d: Byte)
    ensures Lower(c) == Lower(d) <==> c == d || CaseOf(c, d) || CaseOf(d, c)
  {
  }

  lemma A1Is(alg: seq<Byte>, user: seq<Byte>, realm: seq<Byte>, password: seq<Byte>, nonce: seq<Byte>,
             cnonce: seq<Byte>)
    ensures var plain := user + [0x3a] + realm + [0x3a] + password;
            A1(alg, user, realm, password, nonce, cnonce) ==
            if SameIgnoringCase(alg, MD5_SESS) then Md5Spec.Digest(plain) + [0x3a] + nonce + [0x3a] + cnonce else plain
  {
    hide Md5Spec.Digest, Join, SameIgnoringCase;
    JoinThree(user, realm, password);
    JoinThree(Md5Spec.Digest(Join([user, realm, password])), nonce, cnonce);
  }

  lemma A2Is(qop: seq<Byte>, method_: seq<Byte>, uri: seq<Byte>, hEntity: seq<Byte>)
    ensures A2(qop, method_, uri, hEntity)
         == method_ + [0x3a] + uri + if SameIgnoringCase(qop, AUTH_INT) then [0x3a] + hEntity else []
  {
    hide Join, SameIgnoringCase;
    JoinTwo(method_, uri);
    JoinThree(method_, uri, hEntity);
    assert method_ + [0x3a] + uri + [0x3a] + hEntity == method_ + [0x3a] + uri + ([0x3a] + hEntity);
  }

  lemma ResponseTextIs(hA1: seq<Byte>, nonce: seq<Byte>, nonceCount: seq<Byte>, cnonce: seq<Byte>, qop: seq<Byte>,
                       hA2: seq<Byte>)
    ensures ResponseText(hA1, nonce, nonceCount, cnonce, qop, hA2)
         == hA1 + [0x3a] + nonce + [0x3a]
            + (if qop == [] then [] else nonceCount + [0x3a] + cnonce + [0x3a] + qop + [0x3a]) + hA2
  {
    hide Join;
    JoinThree(hA1, nonce, hA2);
    JoinSix(hA1, nonce, nonceCount, cnonce, qop, hA2);
    assert hA1 + [0x3a] + nonce + [0x3a] + [] + hA2 == hA1 + [0x3a] + nonce + [0x3a] + hA2;
    assert hA1 + [0x3a] + nonce + [0x3a] + (nonceCount + [0x3a] + cnonce + [0x3a] + qop + [0x3a]) + hA2
        == hA1 + [0x3a] + nonce + [0x3a] + nonceCount + [0x3a] + cnonce + [0x3a] + qop + [0x3a] + hA2;
  }

  // ---- What digcalc.c does ----

  predicate Short(s: seq<Byte>) {
    |s| + 63 < 0x1_0000_0000
  }

  method CvtHex(bin: seq<Byte>, hex: array<Byte>)
    requires |bin| == 16 && hex.Length == 33
    modifies hex
    ensures hex[..] == Hex(bin) + [0]
  {
    var i := 0;
    while i < 16
      invariant 0 <= i <= 16 && hex[..2 * i] == Hex(bin[..i])
    {
      var j := bin[i] / 16;
      if j <= 9 {
        hex[2 * i] := j + 0x30;
      } else {
        hex[2 * i] := j + 0x61 - 10;
      }
      j := bin[i] % 16;
      if j <= 9 {
        hex[2 * i + 1] := j + 0x30;
      } else {
        hex[2 * i + 1] := j + 0x61 - 10;
      }
      assert bin[..i + 1][..i] == bin[..i];
      assert hex[..2 * (i + 1)] == hex[..2 * i] + [HexDigit(bin[i] / 16), HexDigit(bin[i] % 16)];
      i := i + 1;
    }
    hex[32] := 0;
    assert bin[..16] == bin;
  }

  lemma JoinOneMore(parts: seq<seq<Byte>>, last: seq<Byte>)
    requires parts != []
    ensures Join(parts + [last]) == Join(parts) + COLON + last
  {
    assert (parts + [last])[..|parts|] == parts;
  }

  lemma JoinTwo(a: seq<Byte>, b: seq<Byte>)
    ensures Join([a, b]) == a + COLON + b
  {
    JoinOneMore([a], b);
    assert [a] + [b] == [a, b];
  }

  lemma JoinThree(a: seq<Byte>, b: seq<Byte>, c: seq<Byte>)
    ensures Join([a, b, c]) == a + COLON + b + COLON + c
  {
    JoinTwo(a, b);
    JoinOneMore([a, b], c);
    assert [a, b] + [c] == [a, b, c];
  }

  lemma JoinSix(a: seq<Byte>, b: seq<Byte>, c: seq<Byte>, d: seq<Byte>, e: seq<Byte>, f: seq<Byte>)
    ensures Join([a, b, c, d, e, f])
         == a + COLON + b + COLON + c + COLON + d + COLON + e + COLON + f
  {
    JoinThree(a, b, c);
    JoinOneMore([a, b, c], d);
    assert [a, b, c] + [d] == [a, b, c, d];
    JoinOneMore([a, b, c, d], e);
    assert [a, b, c, d] + [e] == [a, b, c, d, e];
    JoinOneMore([a, b, c, d, e], f);
    assert [a, b, c, d, e] + [f] == [a, b, c, d, e, f];
  }

  /** Init, three fields with colons between them, and Final: what both passes of DigestCalcHA1 do. */
  method HashThree(ctx: Md5.Context, a: seq<Byte>, b: seq<Byte>, c: seq<Byte>, hash: array<Byte>)
    requires ctx.Shaped() && hash.Length == 16 && hash as object !in ctx.Repr()
    requires Short(a) && Short(b) && Short(c)
    modifies ctx.Repr(), hash
    ensures ctx.Shaped() && hash[..] == Md5Spec.Digest(Join([a, b, c]))
  {
    hide Md5Spec.Digest, Md5.Context.Valid, Join;
    ctx.Init();
    ctx.Update(a);
    ctx.Update(COLON);
    ctx.Update(b);
    ctx.Update(COLON);
    ctx.Update(c);
    JoinThree(a, b, c);
    assert ctx.absorbed == Join([a, b, c]);
    ctx.Final(hash);
  }

  method DigestCalcHA1(alg: seq<Byte>, user: seq<Byte>, realm: seq<Byte>, password: seq<Byte>,
                       nonce: seq<Byte>, cnonce: seq<Byte>, sessionKey: array<Byte>)
    requires Short(user) && Short(realm) && Short(password) && Short(nonce) && Short(cnonce)
    requires sessionKey.Length == 33
    modifies sessionKey
    ensures sessionKey[..] == H(A1(alg, user, realm, password, nonce, cnonce)) + [0]
    ensures var plain := user + [0x3a] + realm + [0x3a] + password;
            sessionKey[..] == H(if SameIgnoringCase(alg, MD5_SESS)
                                then Md5Spec.Digest(plain) + [0x3a] + nonce + [0x3a] + cnonce else plain) + [0]
  {
    hide Md5Spec.Digest, Join;
    A1Is(alg, user, realm, password, nonce, cnonce);
    var ctx := new Md5.Context();
    var ha1 := new Byte[16];
    HashThree(ctx, user, realm, password, ha1);
    if SameIgnoringCase(alg, MD5_SESS) {
      HashThree(ctx, ha1[..], nonce, cnonce, ha1);
    }
    CvtHex(ha1[..], sessionKey);
  }

  method HashA2(ctx: Md5.Context, qop: seq<Byte>, method_: seq<Byte>, uri: seq<Byte>,
                hEntity: seq<Byte>, hash: array<Byte>)
    requires ctx.Shaped() && hash.Length == 16 && hash as object !in ctx.Repr()
    requires Short(method_) && Short(uri) && Short(hEntity)
    modifies ctx.Repr(), hash
    ensures ctx.Shaped() && hash[..] == Md5Spec.Digest(A2(qop, method_, uri, hEntity))
  {
    hide Md5Spec.Digest, Md5.Context.Valid, Join;
    ctx.Init();
    ctx.Update(method_);
    ctx.Update(COLON);
    ctx.Update(uri);
    JoinTwo(method_, uri);
    assert ctx.absorbed == Join([method_, uri]);
    if SameIgnoringCase(qop, AUTH_INT) {
      ctx.Update(COLON);
      ctx.Update(hEntity);
      JoinThree(method_, uri, hEntity);
    }
    ctx.Final(hash);
  }

  method HashResponse(ctx: Md5.Context, hA1: seq<Byte>, nonce: seq<Byte>, nonceCount: seq<Byte>,
                      cnonce: seq<Byte>, qop: seq<Byte>, hA2: seq<Byte>, hash: array<Byte>)
    requires ctx.Shaped() && hash.Length == 16 && hash as object !in ctx.Repr()
    requires Short(hA1) && Short(nonce) && Short(nonceCount) && Short(cnonce) && Short(qop) && Short(hA2)
    modifies ctx.Repr(), hash
    ensures ctx.Shaped() && hash[..] == Md5Spec.Digest(ResponseText(hA1, nonce, nonceCount, cnonce, qop, hA2))
  {
    hide Md5Spec.Digest, Md5.Context.Valid, Join;
    ctx.Init();
    ctx.Update(hA1);
    ctx.Update(COLON);
    ctx.Update(nonce);
    ctx.Update(COLON);
    assert ctx.absorbed == hA1 + COLON + nonce + COLON;
    if qop != [] {
      UpdateQop(ctx, nonceCount, cnonce, qop);
    }
    ctx.Update(hA2);
    JoinSix(hA1, nonce, nonceCount, cnonce, qop, hA2);
    JoinThree(hA1, nonce, hA2);
    assert ctx.absorbed == ResponseText(hA1, nonce, nonceCount, cnonce, qop, hA2);
    ctx.Final(hash);
  }

  /** The three fields that a qop adds to the response. */
  method UpdateQop(ctx: Md5.Context, nonceCount: seq<Byte>, cnonce: seq<Byte>, qop: seq<Byte>)
    requires ctx.Valid() && Short(nonceCount) && Short(cnonce) && Short(qop)
    modifies ctx.Repr()
    ensures ctx.Valid()
    ensures ctx.absorbed == old(ctx.absorbed) + nonceCount + COLON + cnonce + COLON + qop + COLON
  {
    hide Md5.Context.Valid;
    ctx.Update(nonceCount);
    ctx.Update(COLON);
    ctx.Update(cnonce);
    ctx.Update(COLON);
    ctx.Update(qop);
    ctx.Update(COLON);
  }

  method DigestCalcResponse(hA1: seq<Byte>, nonce: seq<Byte>, nonceCount: seq<Byte>, cnonce: seq<Byte>,
                            qop: seq<Byte>, method_: seq<Byte>, uri: seq<Byte>, hEntity: seq<Byte>,
                            response: array<Byte>)
    requires |hA1| == 33 && |hEntity| == 33 && response.Length == 33
    requires Short(nonce) && Short(nonceCount) && Short(cnonce) && Short(qop) && Short(method_) && Short(uri)
    modifies response
    ensures response[..] == H(ResponseText(hA1[..32], nonce, nonceCount, cnonce, qop,
                                           H(A2(qop, method_, uri, hEntity[..32])))) + [0]
    ensures var a2 := method_ + [0x3a] + uri + if SameIgnoringCase(qop, AUTH_INT) then [0x3a] + hEntity[..32] else [];
            response[..] == H(hA1[..32] + [0x3a] + nonce + [0x3a]
                              + (if qop == [] then [] else nonceCount + [0x3a] + cnonce + [0x3a] + qop + [0x3a])
                              + H(a2)) + [0]
  {
    hide Md5Spec.Digest, Md5.Context.Valid, Join, ResponseText, A2;
    A2Is(qop, method_, uri, hEntity[..32]);
    ResponseTextIs(hA1[..32], nonce, nonceCount, cnonce, qop, H(A2(qop, method_, uri, hEntity[..32])));
    var ctx := new Md5.Context();
    var ha2 := new Byte[16];
    var respHash := new Byte[16];
    var ha2Hex := new Byte[33];
    HashA2(ctx, qop, method_, uri, hEntity[..32], ha2);
    CvtHex(ha2[..], ha2Hex);
    assert ha2Hex[..32] == H(A2(qop, method_, uri, hEntity[..32]));
    HashResponse(ctx, hA1[..32], nonce, nonceCount, cnonce, qop, ha2Hex[..32], respHash);
    CvtHex(respHash[..], response);
  }
}
