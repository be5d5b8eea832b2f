/** C strings and the library functions on them that the SIP code uses. A C string is the
    sequence of its characters before the terminating zero. */
module CText {

  /** strstr: where `p` first occurs in `s`, or -1. */
  function Find(s: string, p: string): (i: int)
    ensures -1 <= i && (i >= 0 ==> i + |p| <= |s| && s[i..i + |p|] == p)
    decreases |s|
  {
    if p <= s then 0
    else if s == [] then -1
    else
      var r := Find(s[1..], p);
      if r < 0 then -1 else r + 1
  }

  predicate Occurs(s: string, p: string) {
    Find(s, p) >= 0
  }

  /** Find misses nothing: there is no occurrence before the one it reports. */
  lemma {:induction false} FindIsFirst(s: string, p: string, k: nat)
    requires k + |p| <= |s| && s[k..k + |p|] == p
    ensures 0 <= Find(s, p) <= k
    decreases |s|
  {
    if k > 0 && !(p <= s) {
      assert s[1..][k - 1..k - 1 + |p|] == p;
      FindIsFirst(s[1..], p, k - 1);
    }
  }

  /** Text after an occurrence does not matter. */
  lemma {:induction false} FindInFront(s: string, t: string, p: string)
    requires Occurs(s, p)
    ensures Find(s + t, p) == Find(s, p)
    decreases |s|
  {
    if p <= s {
      assert (s + t)[..|p|] == s[..|p|] == p;
    } else {
      FindInFront(s[1..], t, p);
      assert (s + t)[1..] == s[1..] + t;
    }
  }

  /** A pattern without the separator does not straddle it. */
  lemma {:induction false} FindPastSeparator(s: string, sep: char, t: string, p: string)
    requires p != [] && sep !in p && !Occurs(s, p)
    ensures Find(s + [sep] + t, p) == if Occurs(t, p) then |s| + 1 + Find(t, p) else -1
    decreases |s|
  {
    var all := s + [sep] + t;
    assert all[|s|] == sep;
    assert !(p <= all);
    if s == [] {
      assert all[1..] == t;
    } else {
      FindPastSeparator(s[1..], sep, t, p);
      assert all[1..] == s[1..] + [sep] + t;
    }
  }

  /** A pattern with a character that the text lacks does not occur in it. */
  lemma {:induction false} MissingCharacter(s: string, p: string, c: char)
    requires c in p && c !in s
    ensures !Occurs(s, p)
    decreases |s|
  {
    assert !(p <= s);
    if s != [] {
      MissingCharacter(s[1..], p, c);
    }
  }

  /** The first occurrence of a single character. */
  lemma {:induction false} FindCharacter(s: string, c: char, t: string)
    requires c !in s
    ensures Find(s + [c] + t, [c]) == |s|
    decreases |s|
  {
    var all := s + [c] + t;
    if s == [] {
      assert all[..1] == [c];
    } else {
      assert all[1..] == s[1..] + [c] + t;
      FindCharacter(s[1..], c, t);
      assert all[0] == s[0] != c;
    }
  }

  lemma CharacterOccurs(s: string, c: char)
    requires c in s
    ensures Occurs(s, [c])
  {
    var k :| 0 <= k < |s| && s[k] == c;
    assert s[k..k + 1] == [c];
    FindIsFirst(s, [c], k);
  }

  /** The text around the first occurrence of a character. */
  lemma FirstCharacter(s: string, c: char)
    requires Occurs(s, [c])
    ensures var i := Find(s, [c]);
            c !in s[..i] && s[i] == c && s == s[..i] + [c] + s[i + 1..]
  {
    hide Find;
    var i := Find(s, [c]);
    assert s[i..i + 1] == [c];
    assert s == s[..i] + s[i..];
    if c in s[..i] {
      CharacterOccurs(s[..i], c);
      FindInFront(s[..i], s[i..], [c]);
    }
  }

  lemma NoCharacter(s: string, c: char)
    requires !Occurs(s, [c])
    ensures c !in s
  {
    hide Find;
    if c in s {
      CharacterOccurs(s, c);
    }
  }

  // ---- Numbers ----

  function Digit(n: nat): (c: char)
    requires n < 10
    ensures '0' <= c <= '9'
  {
    '0' + n as char
  }

  function DecNat(n: nat): (s: string)
    ensures s != []
  {
    if n < 10 then [Digit(n)] else DecNat(n / 10) + [Digit(n % 10)]
  }

  /** sprintf with %d. */
  function Dec(n: int): (s: string)
    ensures s != []
  {
    if n < 0 then "-" + DecNat(-n) else DecNat(n)
  }

  predicate IsSpace(c: char) {
    c == ' ' || '\t' <= c <= '\r'
  }

  predicate IsDigit(c: char) {
    '0' <= c <= '9'
  }

  function DigitsValue(s: string, so: nat): nat {
    if s == [] || !IsDigit(s[0]) then so else DigitsValue(s[1..], 10 * so + (s[0] - '0') as nat)
  }

  /** atoi: white space, a sign, and the digits up to the first other character. */
  function Atoi(s: string): int {
    if s != [] && IsSpace(s[0]) then Atoi(s[1..])
    else if s != [] && s[0] == '-' then -(DigitsValue(s[1..], 0) as int)
    else if s != [] && s[0] == '+' then DigitsValue(s[1..], 0)
    else DigitsValue(s, 0)
  }

  lemma {:induction false} DecNatDigits(n: nat)
    ensures forall c :: c in DecNat(n) ==> IsDigit(c)
  {
    if n >= 10 {
      DecNatDigits(n / 10);
    }
  }

  lemma {:induction false} LastDigits(n: nat, rest: string)
    ensures DigitsValue(DecNat(n) + rest, 0) == DigitsValue(rest, n)
  {
    if n >= 10 {
      var d := Digit(n % 10);
      LastDigits(n / 10, [d] + rest);
      assert DecNat(n) + rest == DecNat(n / 10) + ([d] + rest);
      assert ([d] + rest)[1..] == rest;
    } else {
      assert (DecNat(n) + rest)[1..] == rest;
    }
  }

  /** A printed number, followed by nothing or by something that is no digit, reads back. */
  lemma AtoiOfDec(n: int, rest: string)
    requires rest == [] || !IsDigit(rest[0])
    ensures Atoi(Dec(n) + rest) == n
  {
    hide DecNat, DigitsValue;
    var m := if n < 0 then -n else n;
    var digits := DecNat(m) + rest;
    DecNatDigits(m);
    assert IsDigit(digits[0]);
    assert DigitsValue(digits, 0) == m by { LastDigits(m, rest); NoMoreDigits(rest, m); }
    if n < 0 {
      assert Dec(n) + rest == ['-'] + digits;
      AtoiOfSigned(digits);
    } else {
      AtoiOfDigits(digits);
    }
  }

  lemma AtoiOfDigits(s: string)
    requires s != [] && IsDigit(s[0])
    ensures Atoi(s) == DigitsValue(s, 0)
  {
  }

  lemma AtoiOfSigned(s: string)
    ensures Atoi(['-'] + s) == -(DigitsValue(s, 0) as int)
  {
    assert (['-'] + s)[1..] == s;
  }

  lemma NoMoreDigits(rest: string, n: nat)
    requires rest == [] || !IsDigit(rest[0])
    ensures DigitsValue(rest, n) == n
  {
  }
}
