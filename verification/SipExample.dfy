/** A message that can be received and is answered wrongly, and a whole call in which it is. */
module SipExample {
  import opened Buffers
  import opened CText
  import opened SipText
  import opened SipRequests
  import opened SipCall
  import opened SipRuns

  // ---- A message that is answered wrongly ----

  /** A request whose first field is From, and whose Via field holds the name From. */
  const MISLEADING_HEADERS: seq<Header> :=
    [Header("BYE sip", "x SIP/2.0"), Header("From", "b"), Header("Via", "From:a"), Header("To", "c"),
     Header("Contact", "d"), Header("Call-ID", "e"), Header("CSeq", "f")]

  const MISLEADING := HeadersText(MISLEADING_HEADERS)

  predicate Lacks(hs: seq<Header>, n: nat, c: char)
    requires n <= |hs|
  {
    forall k :: 0 <= k < n ==> c !in hs[k].name && c !in hs[k].value
  }

  lemma NameLacking(hs: seq<Header>, n: nat, name: string, c: char)
    requires n <= |hs| && c in name && Lacks(hs, n, c)
    ensures Lookup(hs, name) == Lookup(hs[n..], name)
  {
    hide Find, Lookup;
    forall k | 0 <= k < n
      ensures !Occurs(hs[k].name, name) && !Occurs(Body(hs[k].value), name)
    {
      MissingCharacter(hs[k].name, name, c);
      MissingCharacter(Body(hs[k].value), name, c);
    }
    LookupSkips(hs, n, name);
  }

  /** A search for the name of header `n`, with a character that nothing before it has. */
  lemma OwnHeader(hs: seq<Header>, n: nat, c: char)
    requires n < |hs| && c in hs[n].name && Lacks(hs, n, c) && '\r' !in hs[n].value
    ensures Lookup(hs, hs[n].name) == Found(hs[n].value + "\r")
  {
    hide Find;
    NameLacking(hs, n, hs[n].name, c);
    assert hs[n..][0] == hs[n];
    FindPrefix(hs[n].name, hs[n].name);
  }

  lemma NoHeader(hs: seq<Header>, name: string, c: char)
    requires c in name && Lacks(hs, |hs|, c)
    ensures Lookup(hs, name) == Missing
  {
    NameLacking(hs, |hs|, name, c);
    assert hs[|hs|..] == [];
  }

  /** A letter of each name that is searched for, or a carriage return. */
  predicate Telling(c: char) {
    || c == 'V' || c == 'F' || c == 'T' || c == 'C' || c == 'D' || c == 'q'
    || c == 'v' || c == 'w' || c == 'u' || c == 'W' || c == 'L' || c == '\r'
  }

  lemma RequestLacks(c: char)
    requires Telling(c) || c == ':'
    ensures c !in "BYE sip" && (c != ':' ==> c !in "x SIP/2.0")
  {
  }

  lemma ViaLacks(c: char)
    requires Telling(c) || c == ':'
    ensures c != 'V' ==> c !in "Via"
    ensures c != 'F' && c != ':' ==> c !in "From:a"
    ensures c != 'F' ==> c !in "From"
  {
  }

  lemma OthersLack(c: char)
    requires Telling(c) || c == ':'
    ensures (c != 'T' ==> c !in "To") && (c != 'C' ==> c !in "Contact")
    ensures (c != 'C' && c != 'D' ==> c !in "Call-ID") && (c != 'C' && c != 'q' ==> c !in "CSeq")
    ensures c !in "b" && c !in "c" && c !in "d" && c !in "e" && c !in "f"
  {
  }

  lemma MisleadingLacks(n: nat, c: char)
    requires n <= 7 && Telling(c)
    requires n > 1 ==> c != 'F'
    requires n > 2 ==> c != 'V'
    requires n > 3 ==> c != 'T'
    requires n > 4 ==> c != 'C'
    requires n > 5 ==> c != 'D'
    requires n > 6 ==> c != 'q'
    ensures Lacks(MISLEADING_HEADERS, n, c)
  {
    RequestLacks(c);
    ViaLacks(c);
    OthersLack(c);
    MisleadingAre();
  }

  lemma MisleadingAre()
    ensures var hs := MISLEADING_HEADERS;
            && |hs| == 7 && hs[0] == Header("BYE sip", "x SIP/2.0") && hs[1] == Header("From", "b")
            && hs[2] == Header("Via", "From:a") && hs[3] == Header("To", "c") && hs[4] == Header("Contact", "d")
            && hs[5] == Header("Call-ID", "e") && hs[6] == Header("CSeq", "f")
  {
  }

  lemma MisleadingIsClean()
    ensures AllClean(MISLEADING_HEADERS)
    ensures forall k :: 0 <= k < 7 ==> '\r' !in MISLEADING_HEADERS[k].value
  {
    var hs := MISLEADING_HEADERS;
    MisleadingLacks(7, '\r');
    RequestLacks(':');
    ViaLacks(':');
    OthersLack(':');
    MisleadingAre();
  }

  lemma MisleadingField(n: nat, c: char)
    requires 1 <= n < 7 && c in MISLEADING_HEADERS[n].name && Plain(MISLEADING_HEADERS[n].name)
    requires Lacks(MISLEADING_HEADERS, n, c)
    ensures Field(MISLEADING, MISLEADING_HEADERS[n].name) == Found(MISLEADING_HEADERS[n].value + "\r")
  {
    hide Field, Lookup, HeadersText, Lacks, Find;
    var hs := MISLEADING_HEADERS;
    MisleadingIsClean();
    FieldIsLookup(hs, hs[n].name);
    OwnHeader(hs, n, c);
  }

  lemma MisleadingFields()
    ensures var t := MISLEADING;
            && Field(t, "Via") == Found("From:a\r") && Field(t, "From") == Found("b\r")
            && Field(t, "To") == Found("c\r") && Field(t, "Contact") == Found("d\r")
            && Field(t, "Call-ID") == Found("e\r") && Field(t, "CSeq") == Found("f\r")
  {
    FirstMisleadingFields();
    LastMisleadingFields();
  }

  lemma FirstMisleadingFields()
    ensures var t := MISLEADING;
            && Field(t, "Via") == Found("From:a\r") && Field(t, "From") == Found("b\r")
            && Field(t, "To") == Found("c\r")
  {
    hide Field, Lacks, HeadersText;
    MisleadingAre();
    ShortMarks();
    MisleadingLacks(1, 'F');
    MisleadingField(1, 'F');
    MisleadingLacks(2, 'V');
    MisleadingField(2, 'V');
    MisleadingLacks(3, 'T');
    MisleadingField(3, 'T');
  }

  lemma LastMisleadingFields()
    ensures var t := MISLEADING;
            && Field(t, "Contact") == Found("d\r") && Field(t, "Call-ID") == Found("e\r")
            && Field(t, "CSeq") == Found("f\r")
  {
    hide Field, Lacks, HeadersText;
    MisleadingAre();
    ShortMarks();
    MiddleMarks();
    LongMarks();
    MisleadingLacks(4, 'C');
    MisleadingField(4, 'C');
    MisleadingLacks(5, 'D');
    MisleadingField(5, 'D');
    MisleadingLacks(6, 'q');
    MisleadingField(6, 'q');
  }

  lemma MisleadingStatus()
    ensures var t := MISLEADING;
            && Occurs(t, "SIP") && Find(t, " ") == 3 && |t| >= 7
            && Parse(t).code == 0 && Parse(t).command == "BYE"
  {
    hide Find, Atoi, HeadersText, Parse;
    var tail := MisleadingTail();
    var t := MISLEADING;
    FindCharacter("BYE", ' ', tail);
    assert t[4..7] == tail[..3] && t[..3] == "BYE";
    AtoiOfSip();
    ParsedStatus(t);
  }

  lemma MisleadingTail() returns (tail: string)
    ensures |tail| >= 3 && tail[..3] == "sip" && MISLEADING == "BYE" + [' '] + tail
    ensures Occurs(MISLEADING, "SIP")
  {
    hide Find, HeadersText;
    var rest := MisleadingParts();
    tail := "sip:x SIP/2.0" + rest;
    assert MISLEADING == "BYE sip:x " + "SIP" + ("/2.0" + rest);
    OccursBetween("BYE sip:x ", "SIP", "/2.0" + rest);
  }

  lemma MisleadingParts() returns (rest: string)
    ensures MISLEADING == "BYE sip:x SIP/2.0" + rest
  {
    hide HeadersText;
    var hs := MISLEADING_HEADERS;
    MisleadingAre();
    FirstHeader(hs);
    rest := "\r\n" + HeadersText(hs[1..]);
    RequestText();
  }

  lemma RequestText()
    ensures HeaderText(Header("BYE sip", "x SIP/2.0")) == "BYE sip:x SIP/2.0" + "\r\n"
  {
  }

  /** The round trip can fail for a message that the program can receive, with all six fields in it:
      the answer is read with another From. */
  lemma AnswerRoundTripCanFail()
    ensures var m := Parse(MISLEADING);
            && m.command == "BYE" && m.via == "From:a\r" && m.from == "b\r" && m.to == "c\r"
            && m.contact == "d\r" && m.callId == "e\r" && m.cseq == "f\r"
            && CleanAnswer(m) && Parse(Ok200(m)).from == "a\r" && !Recoverable(m)
  {
    hide Ok200, Field, Find, AnswerHeaders, Lookup, Body, HeadersText, Parse, Harmless;
    var m := Parse(MISLEADING);
    MisleadingStatus();
    MisleadingFields();
    ParsedFields(MISLEADING);
    ParsedIsClean(MISLEADING);
    AnswerCode(m);
    AnswerField(m, "From", 'F');
    FromInVia(AnswerHeaders(m));
    ParsedFields(Ok200(m));
    AnswerRoundTrip(m);
  }

  lemma SomeBodies()
    ensures Body("From:a\r") == "From:a" && Body("b\r") == "b" && Body("") == ""
  {
  }

  lemma FromInVia(hs: seq<Header>)
    requires hs != [] && hs[0] == Header("Via", "From:a\r")
    ensures Lookup(hs, "From") == Found("a\r")
  {
    hide Find;
    SomeBodies();
    MissingCharacter("Via", "From", 'F');
    FindPrefix("From:a", "From");
    FindCharacter("rom", ':', "a");
    assert "From:a"[1..] == "rom" + [':'] + "a";
  }

  // ---- Texts that the program can store ----

  lemma ShortIsStorable(mess: string)
    requires |mess| < FIELD_SIZE && |Parse(mess).command| < COMMAND_SIZE
    ensures Storable(mess)
  {
    hide Field, Find, Parse;
    FieldNamesAreNames();
    forall k | 0 <= k < |FIELD_NAMES|
      ensures |Field(mess, FIELD_NAMES[k]).Text()| < FIELD_SIZE
    {
      FieldIsShorter(mess, FIELD_NAMES[k]);
    }
  }

  lemma FieldNamesAreNames()
    ensures |FIELD_NAMES| == 11 && forall k :: 0 <= k < 11 ==> FIELD_NAMES[k] != ""
  {
  }

  lemma FieldIsShorter(mess: string, name: string)
    requires name != ""
    ensures |Field(mess, name).Text()| <= |mess|
  {
  }

  /** A received text with a zero behind it is seen as it is. */
  lemma EndedText(buffer: string, text: string)
    requires |text| < |buffer| && '\0' !in text
    ensures Occurs(Overlay(buffer, text + "\0"), "\0") && CString(Overlay(buffer, text + "\0")) == text
  {
    hide Find;
    var rest := buffer[|text| + 1..];
    assert Overlay(buffer, text + "\0") == text + ['\0'] + rest;
    FindCharacter(text, '\0', rest);
  }

  lemma EndedIsReadable(s: Call, text: string)
    requires WellFormed(s) && |text| < FIELD_SIZE && '\0' !in text && Parsable(text)
    requires |Parse(text).command| < COMMAND_SIZE
    ensures Readable(s, text + "\0") && Received(s, text + "\0").ans == Parse(text)
  {
    hide Find, Parse, Parsable, Storable, CString;
    EndedText(s.buf, text);
    ShortIsStorable(text);
  }

  predicate Small(h: Header, b: nat) {
    |h.name| + |h.value| <= b
  }

  lemma {:induction false} HeadersAreShort(hs: seq<Header>, b: nat)
    requires forall k :: 0 <= k < |hs| ==> Small(hs[k], b)
    ensures |HeadersText(hs)| <= 2 + |hs| * (b + 3)
    decreases |hs|
  {
    if hs != [] {
      HeadersAreShort(hs[1..], b);
      assert |hs| * (b + 3) == |hs[1..]| * (b + 3) + (b + 3);
    }
  }

  lemma {:induction false} HeadersLack(hs: seq<Header>, c: char)
    requires Lacks(hs, |hs|, c) && c != ':' && c != '\r' && c != '\n'
    ensures c !in HeadersText(hs)
    decreases |hs|
  {
    if hs != [] {
      HeadersLack(hs[1..], c);
      assert c !in HeaderText(hs[0]);
    }
  }

  // ---- The answer to the INVITE ----

  const GOOD := SipMessage(0, "", "1\r", "1\r", "1\r", "1\r", "", "1\r", "", "", "1\r", "", 0)

  lemma GoodValues()
    ensures Body("1\r") == "1" && CleanAnswer(GOOD)
    ensures forall k :: 0 <= k < 6 ==> AnswerValues(GOOD)[k] == "1\r"
  {
  }

  lemma DecOfZero()
    ensures Dec(0) == "0" && Atoi("") == 0
  {
  }

  /** With nothing but the figure 1 in its fields, the answer misleads nobody. */
  lemma GoodIsRecoverable()
    ensures Recoverable(GOOD)
  {
    hide Find, Harmless, Dec;
    GoodValues();
    forall i | 0 <= i < 6
      ensures ANSWER_NAMES[i] != "" && Harmless(AnswerHeaders(GOOD), i, ANSWER_NAMES[i])
    {
      GoodIsHarmless(i);
    }
  }

  lemma GoodIsHarmless(i: nat)
    requires i < 6
    ensures ANSWER_NAMES[i] != "" && Harmless(AnswerHeaders(GOOD), i, ANSWER_NAMES[i])
  {
    hide Find, Dec;
    GoodValues();
    NameMarks(i);
    forall k | 0 <= k < i
      ensures !Occurs(Body(AnswerHeaders(GOOD)[k].value), ANSWER_NAMES[i])
    {
      assert AnswerHeaders(GOOD)[k].value == AnswerValues(GOOD)[k] == "1\r";
      MissingCharacter("1", ANSWER_NAMES[i], MARKS[i]);
    }
  }

  lemma NameShapes(k: nat)
    requires k < 6
    ensures |ANSWER_NAMES[k]| <= 7 && '\0' !in ANSWER_NAMES[k] && 'L' !in ANSWER_NAMES[k]
  {
    assert ANSWER_NAMES[0] == "Via" && ANSWER_NAMES[1] == "From" && ANSWER_NAMES[2] == "To";
    assert ANSWER_NAMES[3] == "Contact" && ANSWER_NAMES[4] == "Call-ID" && ANSWER_NAMES[5] == "CSeq";
  }

  /** Headers for an answer whose values are short are short and end nowhere before their end. */
  lemma AnswerIsShort(m: SipMessage)
    requires m.contentLength == 0
    requires forall k :: 0 <= k < 6 ==> |AnswerValues(m)[k]| <= 8 && '\0' !in AnswerValues(m)[k]
    ensures |Ok200(m)| < FIELD_SIZE && '\0' !in Ok200(m)
  {
    hide HeadersText;
    var hs := AnswerHeaders(m);
    DecOfZero();
    LengthHeader();
    forall k | 0 <= k < 7
      ensures Small(hs[k], 18) && '\0' !in hs[k].name && '\0' !in hs[k].value
    {
      if k < 6 {
        NameShapes(k);
      }
    }
    HeadersAreShort(hs, 18);
    HeadersLack(hs, '\0');
    assert '\0' !in OK_LINE;
  }

  lemma LengthHeader()
    ensures |"Content-Length"| == 14 && |"   0"| == 4 && "   " + "0" == "   0"
    ensures '\0' !in "Content-Length" && '\0' !in "   0" && 'L' !in "   0" && Body("   0") == "   0"
  {
  }

  lemma TwoSpellings()
    ensures "Content-Length" != "Content-Lenght" && |"Content-Length"| == |"Content-Lenght"|
  {
    assert "Content-Length"[12] == 't' && "Content-Lenght"[12] == 'h';
  }

  lemma LetterL()
    ensures 'L' in "Content-Lenght" && 'L' !in OK_LINE
  {
    assert "Content-Lenght"[8] == 'L';
  }

  lemma LengthIsMisspelt()
    ensures !Occurs("Content-Length", "Content-Lenght") && Plain("Content-Lenght")
    ensures 'L' in "Content-Lenght" && 'L' !in OK_LINE
  {
    hide Find;
    TwoSpellings();
    LetterL();
    LongMarks();
    LongerName("Content-Length", "Content-Lenght");
  }

  lemma LongerName(s: string, p: string)
    requires |p| >= |s| && p != s
    ensures !Occurs(s, p)
  {
    assert s[0..|s|] == s;
  }

  /** The answer announces its length under a name that the parser does not search for. */
  lemma GoodHasNoLength()
    ensures Field(Ok200(GOOD), "Content-Lenght") == Missing
  {
    hide Find, Field, Lookup, Ok200;
    var hs, name := AnswerHeaders(GOOD), "Content-Lenght";
    GoodValues();
    DecOfZero();
    LengthHeader();
    LengthIsMisspelt();
    AnswerField(GOOD, name, 'L');
    assert hs[6] == Header("Content-Length", "   0");
    forall k | 0 <= k < 7
      ensures !Occurs(hs[k].name, name) && !Occurs(Body(hs[k].value), name)
    {
      if k < 6 {
        NameShapes(k);
        MissingCharacter(hs[k].name, name, 'L');
      }
      assert 'L' !in "1";
      MissingCharacter(Body(hs[k].value), name, 'L');
    }
    LookupSkips(hs, 7, name);
    NothingLeft(hs, name);
  }

  lemma NothingLeft(hs: seq<Header>, name: string)
    requires name != "" && |hs| == 7
    ensures Lookup(hs[7..], name) == Missing
  {
  }

  lemma ParsedLength(mess: string)
    requires Occurs(mess, "SIP") && Field(mess, "Content-Lenght") == Missing
    ensures Parse(mess).contentLength == 0
  {
    hide Find, Field;
    DecOfZero();
  }

  /** What the caller sees of the answer to its INVITE. */
  lemma GoodIsSeen()
    ensures var t := Ok200(GOOD);
            && |t| < FIELD_SIZE && '\0' !in t && Parsable(t)
            && Parse(t).code == 200 && Parse(t).command == "" && SameFields(Parse(t), GOOD)
            && Parse(t).contentLength == 0
  {
    hide Find, Field, Ok200, Parse, Recoverable, Parsable;
    GoodValues();
    assert '\0' !in "1\r";
    AnswerIsShort(GOOD);
    GoodIsRecoverable();
    AnswerRoundTrip(GOOD);
    GoodHasNoLength();
    AnswerCode(GOOD);
    ParsedLength(Ok200(GOOD));
  }

  // ---- The BYE ----

  lemma MisleadingIsShort()
    ensures |MISLEADING| < FIELD_SIZE && '\0' !in MISLEADING
  {
    hide HeadersText;
    var hs := MISLEADING_HEADERS;
    MisleadingAre();
    MisleadingShapes();
    HeadersAreShort(hs, 16);
    HeadersLack(hs, '\0');
  }

  lemma MisleadingShapes()
    ensures var hs := MISLEADING_HEADERS;
            Lacks(hs, 7, '\0') && forall k :: 0 <= k < 7 ==> Small(hs[k], 16)
  {
    MisleadingAre();
    assert '\0' !in "BYE sip" && '\0' !in "x SIP/2.0" && '\0' !in "From:a" && '\0' !in "Via";
    assert '\0' !in "From" && '\0' !in "To" && '\0' !in "Contact" && '\0' !in "Call-ID" && '\0' !in "CSeq";
  }

  lemma MisleadingLacksField(name: string, c: char)
    requires c in name && Plain(name) && (c == 'v' || c == 'w' || c == 'u' || c == 'W' || c == 'L')
    ensures Field(MISLEADING, name) == Missing
  {
    hide Field, Lookup, HeadersText, Lacks, Find;
    MisleadingIsClean();
    MisleadingAre();
    FieldIsLookup(MISLEADING_HEADERS, name);
    MisleadingLacks(7, c);
    NoHeader(MISLEADING_HEADERS, name, c);
  }

  lemma MisleadingMissing()
    ensures var t := MISLEADING;
            && Field(t, "Server") == Missing && Field(t, "Allow") == Missing && Field(t, "Supported") == Missing
            && Field(t, "WWW-Authenticate") == Missing && Field(t, "Content-Lenght") == Missing
  {
    hide Field, HeadersText;
    MiddleMarks();
    LongMarks();
    OtherMarks();
    MisleadingLacksField("Server", 'v');
    MisleadingLacksField("Allow", 'w');
    MisleadingLacksField("Supported", 'u');
    MisleadingLacksField("WWW-Authenticate", 'W');
    MisleadingLacksField("Content-Lenght", 'L');
  }

  lemma OtherMarks()
    ensures 'v' in "Server" && 'w' in "Allow" && 'u' in "Supported" && 'L' in "Content-Lenght"
  {
    assert "Server"[3] == 'v' && "Allow"[4] == 'w' && "Supported"[1] == 'u' && "Content-Lenght"[8] == 'L';
  }

  lemma MisleadingIsParsable()
    ensures Parsable(MISLEADING)
  {
    hide Field, Find, HeadersText;
    MisleadingStatus();
    MisleadingFields();
    MisleadingMissing();
    assert FIELD_NAMES[0] == "Via" && FIELD_NAMES[1] == "From" && FIELD_NAMES[2] == "To";
    assert FIELD_NAMES[3] == "Call-ID" && FIELD_NAMES[4] == "Server" && FIELD_NAMES[5] == "CSeq";
    assert FIELD_NAMES[6] == "Allow" && FIELD_NAMES[7] == "Supported" && FIELD_NAMES[8] == "Contact";
    assert FIELD_NAMES[9] == "WWW-Authenticate" && FIELD_NAMES[10] == "Content-Lenght";
  }

  /** What the program sees of the BYE, and that it can answer it. */
  lemma MisleadingIsSeen()
    ensures var t := MISLEADING;
            && |t| < FIELD_SIZE && '\0' !in t && Parsable(t)
            && Parse(t).command == "BYE" && |Ok200(Parse(t))| < BUFSIZE
  {
    hide Field, Find, HeadersText, Parse, Parsable, Ok200;
    MisleadingIsShort();
    MisleadingIsParsable();
    MisleadingStatus();
    MisleadingFields();
    MisleadingMissing();
    ParsedFields(MISLEADING);
    ParsedLength(MISLEADING);
    FieldShapes();
    AnswerIsShort(Parse(MISLEADING));
  }

  lemma FieldShapes()
    ensures |"From:a\r"| == 7 && '\0' !in "From:a\r" && '\0' !in "b\r" && '\0' !in "c\r"
    ensures '\0' !in "d\r" && '\0' !in "e\r" && '\0' !in "f\r"
  {
  }

  // ---- A caller whose texts fit ----

  const CALLER := Account("1", "1", "1", "1", "1", "1", "1", "1")

  predicate ShortLines(lines: seq<string>, b: nat) {
    forall k :: 0 <= k < |lines| ==> |lines[k]| <= b
  }

  lemma {:induction false} LinesAreShort(lines: seq<string>, b: nat)
    requires ShortLines(lines, b)
    ensures |LinesText(lines)| <= |lines| * (b + 2)
    decreases |lines|
  {
    if lines != [] {
      LinesAreShort(lines[..|lines| - 1], b);
      assert |lines| * (b + 2) == |lines[..|lines| - 1]| * (b + 2) + (b + 2);
    }
  }

  lemma {:induction false} LinesOfBoth(x: seq<string>, y: seq<string>)
    ensures |LinesText(x + y)| == |LinesText(x)| + |LinesText(y)|
    decreases |y|
  {
    if y == [] {
      assert x + y == x;
    } else {
      LinesOfBoth(x, y[..|y| - 1]);
      assert (x + y)[..|x + y| - 1] == x + y[..|y| - 1];
    }
  }

  lemma SdpIsShort()
    ensures |Sdp(CALLER)| <= 420
  {
    hide LinesText;
    var lines := SdpLines(CALLER);
    FirstSdpLines();
    LastSdpLines();
    LinesAreShort(lines[..2], 44);
    LinesAreShort(lines[2..], 34);
    LinesOfBoth(lines[..2], lines[2..]);
    assert lines[..2] + lines[2..] == lines;
  }

  lemma FirstSdpLines()
    ensures ShortLines(SdpLines(CALLER)[..2], 44)
  {
    assert |"o=LONIIS_test 1234567890 1234567890 IN IP4 "| == 43;
  }

  lemma LastSdpLines()
    ensures ShortLines(SdpLines(CALLER)[2..], 34)
  {
    var lines := SdpLines(CALLER)[2..];
    assert lines[0] == "s=LONIIS" && lines[2] == "t=0 0" && lines[4] == "a=rtpmap:0 PCMU/8000";
    assert lines[5] == "a=sendrecv" && lines[7] == "a=fmtp:101 0-15" && lines[8] == "";
    assert |lines[1]| == 10 && |lines[3]| == 23;
    assert |lines[6]| == |"a=rtpmap:101 telephone-event/8000"| == 33;
  }

  lemma CallLinesAreShort()
    ensures ShortLines(CallLines(CALLER, 0), 46)
  {
    DecOfZero();
    var lines := CallLines(CALLER, 0);
    assert |lines[0]| == 22 && |lines[3]| == 16 && |lines[4]| == 11 && |lines[5]| == 18;
    assert |lines[1]| <= 46;
    assert |lines[2]| <= 46;
  }

  lemma ContentLinesAreShort()
    ensures ShortLines(ContentLines(CALLER, 1), 46)
  {
    hide Sdp;
    var lines, n := ContentLines(CALLER, 1), |Sdp(CALLER)|;
    SdpIsShort();
    ThreeDigits(n);
    ThreeDigits(1);
    assert |lines[0]| == 10 && |lines[3]| == 17 && |lines[4]| == 29;
    assert |lines[2]| == 46;
  }

  lemma TwoDigits(n: nat)
    requires n < 100
    ensures |DecNat(n)| <= 2
  {
  }

  lemma ThreeDigits(n: nat)
    requires n < 1000
    ensures |Dec(n)| <= 3
  {
    if n < 100 {
      TwoDigits(n);
    } else {
      TwoDigits(n / 10);
    }
  }

  /** The INVITE of this caller fits the buffer. */
  lemma InviteFits()
    ensures |Invite(CALLER, 1, 0, "")| < BUFSIZE
  {
    hide LinesText, CallLines, ContentLines, Sdp;
    var x, y := CallLines(CALLER, 0), ContentLines(CALLER, 1);
    SdpIsShort();
    CallLinesAreShort();
    ContentLinesAreShort();
    LinesAreShort(x, 46);
    LinesAreShort(y, 46);
    LinesOfBoth(x, y);
  }

  /** So does its ACK to the answer. */
  lemma AckFits(ans: SipMessage)
    requires SameFields(ans, GOOD) && ans.contentLength == 0
    ensures |Ack(CALLER, ans)| < BUFSIZE
  {
    hide HeadersText;
    var hs := AckLines(CALLER, ans);
    DecOfZero();
    LengthHeader();
    AckIsHeaders(CALLER, ans);
    forall k | 0 <= k < |hs|
      ensures Small(hs[k], 24)
    {
      assert hs[0].name == "ACK sip" && |hs[0].value| == 11;
      assert hs[3] == Header("Max-Forwards", " 70");
      assert |"Max-Forwards"| == 12 && |"Contact"| == 7 && |"Call-ID"| == 7;
    }
    HeadersAreShort(hs, 24);
  }

  // ---- A call from its start to its end ----

  const BEFORE := Call(VInit, Start, false, false, 0, -1, 1, 0, Zeros(FILEBUFSIZE), Blank(), Zeros(BUFSIZE),
                       EMPTY_MESSAGE, "", "", "", [])

  function Nothing(ok: bool): Input {
    Input([], 0, false, ok, None, None)
  }

  function Sent(ok: bool): Input {
    Nothing(ok).(sendOk := true)
  }

  /** A file of 100 bytes; the INVITE is sent and answered; a packet makes the file go out in one
      piece and a second one is recorded; the misleading BYE comes; its answer cannot be sent at
      first, and then it can. Both texts come with a zero behind them, so that they are seen without
      what the buffer held before. */
  function CallWith(ok: bool): seq<Input> {
    [Nothing(ok).(content := Zeros(100)), Sent(ok), Nothing(ok).(sip := Some(Ok200(GOOD) + "\0")),
     Nothing(ok).(rtp := Some(Zeros(172))), Nothing(ok).(rtp := Some(Zeros(172))),
     Nothing(ok).(sip := Some(MISLEADING + "\0")), Nothing(ok), Sent(ok), Nothing(ok), Nothing(ok), Nothing(ok)]
  }

  /** How often the actions that matter occur in a log. */
  datatype Tally = Tally(accepted: nat, packets: nat, recorded: nat, closed: nat, failed: nat)

  function TallyOf(log: seq<Action>): Tally {
    Tally(Count(log, IsAcceptance), Count(log, IsPacket), Count(log, IsRecorded), Count(log, IsClosed),
          Count(log, IsFailedOk))
  }

  function Plus(x: Tally, y: Tally): Tally {
    Tally(x.accepted + y.accepted, x.packets + y.packets, x.recorded + y.recorded, x.closed + y.closed,
          x.failed + y.failed)
  }

  lemma TallyOfBoth(x: seq<Action>, y: seq<Action>)
    ensures TallyOf(x + y) == Plus(TallyOf(x), TallyOf(y))
  {
    hide Count, IsAcceptance, IsPacket, IsRecorded, IsClosed, IsFailedOk;
    CountConcat(x, y, IsAcceptance);
    CountConcat(x, y, IsPacket);
    CountConcat(x, y, IsRecorded);
    CountConcat(x, y, IsClosed);
    CountConcat(x, y, IsFailedOk);
  }

  lemma CountOne(x: Action, p: Action -> bool)
    ensures Count([x], p) == if p(x) then 1 else 0
  {
    assert [x][..0] == [];
  }

  lemma TallyOfOne(x: Action)
    ensures TallyOf([x]) == Tally(if IsAcceptance(x) then 1 else 0, if IsPacket(x) then 1 else 0,
                                  if IsRecorded(x) then 1 else 0, if IsClosed(x) then 1 else 0,
                                  if IsFailedOk(x) then 1 else 0)
  {
    hide Count;
    CountOne(x, IsAcceptance);
    CountOne(x, IsPacket);
    CountOne(x, IsRecorded);
    CountOne(x, IsClosed);
    CountOne(x, IsFailedOk);
  }

  lemma TallyMore(log: seq<Action>, x: Action)
    ensures TallyOf(log + [x]) == Plus(TallyOf(log), TallyOf([x]))
  {
    TallyOfBoth(log, [x]);
  }

  lemma TallyTwo(log: seq<Action>, x: Action, y: Action)
    ensures TallyOf(log + [x, y]) == Plus(TallyOf(log), Plus(TallyOf([x]), TallyOf([y])))
  {
    hide TallyOf;
    TallyOfBoth(log, [x, y]);
    TallyOfBoth([x], [y]);
    assert [x] + [y] == [x, y];
  }

  /** Where the call stands. */
  predicate At(s: Call, sip: SipState, sent: bool, tally: Tally) {
    && WellFormed(s) && s.v == VStart && !s.callEnd && s.sip == sip && s.messTrans == sent
    && s.fsize == 100 && s.returnCode == 0 && (!sent ==> s.bufPoint == 0) && TallyOf(s.log) == tally
  }

  lemma LoadsFile(ok: bool)
    ensures var t := Step(CALLER, BEFORE, CallWith(ok)[0]);
            && Defined(CALLER, BEFORE, CallWith(ok)[0])
            && At(t, Start, false, Tally(0, 0, 0, 0, 0)) && t.cseq == 1 && t.authString == ""
  {
  }

  lemma SendsInvite(ok: bool, s: Call)
    requires At(s, Start, false, Tally(0, 0, 0, 0, 0)) && s.cseq == 1 && s.authString == ""
    ensures Defined(CALLER, s, Sent(ok)) && At(Step(CALLER, s, Sent(ok)), InviteSent, false, Tally(0, 0, 0, 0, 0))
  {
    hide Invite, StrCpy, TallyOf;
    InviteFits();
    var x := Invited(1, Invite(CALLER, 1, 0, ""), true);
    TallyOfOne(x);
    TallyMore(s.log, x);
  }

  lemma GetsAnswer(ok: bool, s: Call)
    requires At(s, InviteSent, false, Tally(0, 0, 0, 0, 0))
    ensures var i := Nothing(ok).(sip := Some(Ok200(GOOD) + "\0"));
            Defined(CALLER, s, i) && At(Step(CALLER, s, i), InviteCompleted, false, Tally(1, 0, 0, 0, 0))
  {
    hide Ack, StrCpy, TallyOf, Ok200, Parse, Readable, CString, SameFields, Parsable;
    var data := Ok200(GOOD) + "\0";
    GoodIsSeen();
    EndedIsReadable(s, Ok200(GOOD));
    var r := Received(s, data);
    AckFits(r.ans);
    AnswerTally(s.log, r.ans.auth, ok, Ack(CALLER, r.ans));
  }

  lemma AnswerTally(log: seq<Action>, auth: string, ok: bool, text: string)
    requires TallyOf(log) == Tally(0, 0, 0, 0, 0)
    ensures TallyOf(log + [PolledSip, Answered(200, auth)] + [Opened(ok)] + [Acked(text)]) == Tally(1, 0, 0, 0, 0)
  {
    hide TallyOf;
    TallyOfAnswer(auth, ok, text);
    PolledTally(log, auth);
    QuietTwo(log + [PolledSip, Answered(200, auth)], Opened(ok), Acked(text));
  }

  lemma PolledTally(log: seq<Action>, auth: string)
    requires TallyOf(log) == Tally(0, 0, 0, 0, 0)
    ensures TallyOf(log + [PolledSip, Answered(200, auth)]) == Tally(1, 0, 0, 0, 0)
  {
    hide TallyOf;
    TallyOfAnswer(auth, true, "");
    TallyTwo(log, PolledSip, Answered(200, auth));
  }

  lemma QuietTwo(log: seq<Action>, x: Action, y: Action)
    requires TallyOf([x]) == TallyOf([y]) == Tally(0, 0, 0, 0, 0)
    ensures TallyOf(log + [x] + [y]) == TallyOf(log)
  {
    hide TallyOf;
    TallyMore(log, x);
    TallyMore(log + [x], y);
  }

  lemma TallyOfAnswer(auth: string, ok: bool, text: string)
    ensures TallyOf([PolledSip]) == TallyOf([Opened(ok)]) == TallyOf([Acked(text)]) == Tally(0, 0, 0, 0, 0)
    ensures TallyOf([Answered(200, auth)]) == Tally(1, 0, 0, 0, 0)
  {
    hide TallyOf;
    TallyOfOne(PolledSip);
    TallyOfOne(Answered(200, auth));
    TallyOfOne(Opened(ok));
    TallyOfOne(Acked(text));
  }

  lemma VoiceTally(log: seq<Action>, x: Action, tally: Tally)
    requires TallyOf(log) == tally
    ensures TallyOf(log + [PolledRtp] + [x] + [PolledSip]) == Plus(tally, TallyOf([x]))
  {
    hide TallyOf;
    TallyMore(log, PolledRtp);
    TallyMore(log + [PolledRtp], x);
    TallyMore(log + [PolledRtp] + [x], PolledSip);
    TallyOfOne(PolledRtp);
    TallyOfOne(PolledSip);
    TallyOfOne(x);
  }

  lemma PlaysFile(ok: bool, s: Call)
    requires At(s, InviteCompleted, false, Tally(1, 0, 0, 0, 0))
    ensures var i := Nothing(ok).(rtp := Some(Zeros(172)));
            Defined(CALLER, s, i) && At(Step(CALLER, s, i), InviteCompleted, true, Tally(1, 1, 0, 0, 0))
  {
    hide TallyOf;
    var rtp := Overlay(s.rtp, Zeros(172));
    var packet := rtp[..12] + s.filebuf[1..101] + Zeros(60);
    VoiceTally(s.log, SentRtp(packet), Tally(1, 0, 0, 0, 0));
    TallyOfOne(SentRtp(packet));
  }

  lemma RecordsVoice(ok: bool, s: Call)
    requires At(s, InviteCompleted, true, Tally(1, 1, 0, 0, 0))
    ensures var i := Nothing(ok).(rtp := Some(Zeros(172)));
            Defined(CALLER, s, i) && At(Step(CALLER, s, i), InviteCompleted, true, Tally(1, 1, 1, 0, 0))
  {
    hide TallyOf;
    var window := Overlay(s.rtp, Zeros(172))[12..172];
    VoiceTally(s.log, Recorded(window), Tally(1, 1, 0, 0, 0));
    TallyOfOne(Recorded(window));
  }

  lemma GetsBye(ok: bool, s: Call)
    requires At(s, InviteCompleted, true, Tally(1, 1, 1, 0, 0))
    ensures var i := Nothing(ok).(sip := Some(MISLEADING + "\0"));
            && Defined(CALLER, s, i) && At(Step(CALLER, s, i), ByeSent, true, Tally(1, 1, 1, 0, 0))
            && Step(CALLER, s, i).ans == Parse(MISLEADING)
  {
    hide TallyOf, Ok200, Parse, Readable, CString, Parsable, HeadersText;
    MisleadingIsSeen();
    EndedIsReadable(Logged(s, [PolledRtp]), MISLEADING);
    PollsTally(s.log);
  }

  lemma PollsTally(log: seq<Action>)
    ensures TallyOf(log + [PolledRtp] + [PolledSip]) == TallyOf(log)
  {
    hide TallyOf;
    TallyMore(log, PolledRtp);
    TallyMore(log + [PolledRtp], PolledSip);
    TallyOfOne(PolledRtp);
    TallyOfOne(PolledSip);
  }

  lemma AnswersBye(s: Call, i: Input, tally: Tally)
    requires At(s, ByeSent, true, tally) && s.ans == Parse(MISLEADING)
    ensures Defined(CALLER, s, i)
    ensures var t := Step(CALLER, s, i);
            && At(t, if i.sendOk then ByeCompleted else ByeSent, true,
                  Plus(tally, Tally(0, 0, 0, 1, if i.sendOk then 0 else 1)))
            && t.ans == s.ans && t.log == s.log + [Closed, SentOk(Ok200(s.ans), i.sendOk)]
  {
    hide TallyOf, Ok200, Parse, StrCpy, HeadersText;
    hide Plus;
    MisleadingIsSeen();
    ByeTally(s.log, Ok200(s.ans), i.sendOk);
  }

  lemma ByeTally(log: seq<Action>, text: string, ok: bool)
    ensures TallyOf(log + [Closed, SentOk(text, ok)])
         == Plus(TallyOf(log), Tally(0, 0, 0, 1, if ok then 0 else 1))
  {
    hide TallyOf, Plus;
    TallyOfBoth(log, [Closed, SentOk(text, ok)]);
    TallyOfPair(text, ok);
  }

  lemma TallyOfPair(text: string, ok: bool)
    ensures TallyOf([Closed, SentOk(text, ok)]) == Tally(0, 0, 0, 1, if ok then 0 else 1)
  {
    hide TallyOf, Plus;
    Pair(Closed, SentOk(text, ok));
    TallyOfBye(text, ok);
    CloseAndSend(if ok then 0 else 1);
  }

  lemma Pair(x: Action, y: Action)
    ensures TallyOf([x, y]) == Plus(TallyOf([x]), TallyOf([y]))
  {
    hide TallyOf, Plus;
    TallyOfBoth([x], [y]);
    assert [x] + [y] == [x, y];
  }

  lemma CloseAndSend(failed: nat)
    ensures Plus(Tally(0, 0, 0, 1, 0), Tally(0, 0, 0, 0, failed)) == Tally(0, 0, 0, 1, failed)
  {
  }

  lemma TallyOfBye(text: string, ok: bool)
    ensures TallyOf([Closed]) == Tally(0, 0, 0, 1, 0)
    ensures TallyOf([SentOk(text, ok)]) == Tally(0, 0, 0, 0, if ok then 0 else 1)
  {
    hide TallyOf;
    TallyOfOne(Closed);
    TallyOfOne(SentOk(text, ok));
  }

  lemma Ends(ok: bool, s: Call, tally: Tally)
    requires At(s, ByeCompleted, true, tally)
    ensures var t := Step(CALLER, Step(CALLER, Step(CALLER, s, Nothing(ok)), Nothing(ok)), Nothing(ok));
            && t.v == VEnd && t.returnCode == 0 && TallyOf(t.log) == tally
            && t.ans == s.ans && t.log == s.log + [ClosedSip, ClosedRtp]
  {
    hide TallyOf;
    EndTally(s.log);
  }

  lemma EndTally(log: seq<Action>)
    ensures TallyOf(log + [ClosedSip, ClosedRtp]) == TallyOf(log)
  {
    hide TallyOf, IsAcceptance, IsPacket, IsRecorded, IsClosed, IsFailedOk;
    TallyTwo(log, ClosedSip, ClosedRtp);
    NoneCounted(ClosedSip);
    NoneCounted(ClosedRtp);
  }

  lemma NoneCounted(x: Action)
    requires x.ClosedSip? || x.ClosedRtp?
    ensures TallyOf([x]) == Tally(0, 0, 0, 0, 0)
  {
    hide TallyOf;
    TallyOfOne(x);
  }

  lemma LegalMore(ok: bool, s: Call, n: nat)
    requires WellFormed(s) && n < |CallWith(ok)| && Legal(CALLER, s, CallWith(ok)[..n])
    requires Defined(CALLER, Run(CALLER, s, CallWith(ok)[..n]), CallWith(ok)[n])
    ensures Legal(CALLER, s, CallWith(ok)[..n + 1])
    ensures Run(CALLER, s, CallWith(ok)[..n + 1]) == Step(CALLER, Run(CALLER, s, CallWith(ok)[..n]), CallWith(ok)[n])
  {
    hide Defined, Step;
    assert CallWith(ok)[..n + 1][..n] == CallWith(ok)[..n];
  }

  lemma CallIs(ok: bool)
    ensures |CallWith(ok)| == 11
    ensures CallWith(ok)[0] == Nothing(ok).(content := Zeros(100)) && CallWith(ok)[1] == Sent(ok)
    ensures CallWith(ok)[2] == Nothing(ok).(sip := Some(Ok200(GOOD) + "\0"))
    ensures CallWith(ok)[3] == CallWith(ok)[4] == Nothing(ok).(rtp := Some(Zeros(172)))
    ensures CallWith(ok)[5] == Nothing(ok).(sip := Some(MISLEADING + "\0"))
    ensures CallWith(ok)[6] == Nothing(ok) && CallWith(ok)[7] == Sent(ok)
    ensures CallWith(ok)[8] == CallWith(ok)[9] == CallWith(ok)[10] == Nothing(ok)
  {
  }

  /** The first six steps lead into the answering of BYE. */
  lemma CallReachesBye(ok: bool)
    ensures Initial(BEFORE) && |CallWith(ok)| == 11 && Legal(CALLER, BEFORE, CallWith(ok)[..6])
    ensures var s := Run(CALLER, BEFORE, CallWith(ok)[..6]);
            At(s, ByeSent, true, Tally(1, 1, 1, 0, 0)) && s.ans == Parse(MISLEADING)
  {
    hide Defined, Step, At, Parse, Ok200, HeadersText;
    CallIs(ok);
    assert CallWith(ok)[..0] == [];
    LoadsFile(ok);
    LegalMore(ok, BEFORE, 0);
    SendsInvite(ok, Run(CALLER, BEFORE, CallWith(ok)[..1]));
    LegalMore(ok, BEFORE, 1);
    GetsAnswer(ok, Run(CALLER, BEFORE, CallWith(ok)[..2]));
    LegalMore(ok, BEFORE, 2);
    PlaysFile(ok, Run(CALLER, BEFORE, CallWith(ok)[..3]));
    LegalMore(ok, BEFORE, 3);
    RecordsVoice(ok, Run(CALLER, BEFORE, CallWith(ok)[..4]));
    LegalMore(ok, BEFORE, 4);
    GetsBye(ok, Run(CALLER, BEFORE, CallWith(ok)[..5]));
    LegalMore(ok, BEFORE, 5);
  }

  /** Whether the output file can be opened or not, the call runs to its end with return code 0; the
      file is played and a packet recorded; the output file is closed twice in it, as the first
      answer to BYE cannot be sent, and the answer is read with another From field than the BYE had. */
  lemma CallEnds(ok: bool)
    ensures Initial(BEFORE) && Legal(CALLER, BEFORE, CallWith(ok))
    ensures var t := Run(CALLER, BEFORE, CallWith(ok));
            && t.v == VEnd && t.returnCode == 0 && Count(t.log, IsAcceptance) == 1
            && Count(t.log, IsPacket) == 1 && Count(t.log, IsRecorded) == 1
            && Count(t.log, IsFailedOk) == 1 && Count(t.log, IsClosed) == 2
            && t.ans == Parse(MISLEADING) && SentOk(Ok200(t.ans), true) in t.log
            && Parse(Ok200(t.ans)).from != t.ans.from
  {
    hide Step, At, Parse, Ok200, HeadersText, Count, Recoverable;
    CallIs(ok);
    CallReachesBye(ok);
    var s := Run(CALLER, BEFORE, CallWith(ok)[..6]);
    AnswersBye(s, Nothing(ok), Tally(1, 1, 1, 0, 0));
    LegalMore(ok, BEFORE, 6);
    var t := Run(CALLER, BEFORE, CallWith(ok)[..7]);
    AnswersBye(t, Sent(ok), Tally(1, 1, 1, 1, 1));
    LegalMore(ok, BEFORE, 7);
    var u := Run(CALLER, BEFORE, CallWith(ok)[..8]);
    EndIsDefined(ok, u, Tally(1, 1, 1, 2, 1));
    Ends(ok, u, Tally(1, 1, 1, 2, 1));
    LegalMore(ok, BEFORE, 8);
    LegalMore(ok, BEFORE, 9);
    LegalMore(ok, BEFORE, 10);
    assert CallWith(ok)[..11] == CallWith(ok);
    AnswerRoundTripCanFail();
    SentBefore(t.log, SentOk(Ok200(t.ans), true));
  }

  lemma SentBefore(log: seq<Action>, x: Action)
    ensures x in log + [Closed, x] + [ClosedSip, ClosedRtp]
  {
    assert (log + [Closed, x])[|log| + 1] == x;
  }

  lemma EndIsDefined(ok: bool, s: Call, tally: Tally)
    requires At(s, ByeCompleted, true, tally)
    ensures Defined(CALLER, s, Nothing(ok)) && Defined(CALLER, Step(CALLER, s, Nothing(ok)), Nothing(ok))
    ensures Defined(CALLER, Step(CALLER, Step(CALLER, s, Nothing(ok)), Nothing(ok)), Nothing(ok))
  {
    hide TallyOf;
  }

  // ---- A call whose output file cannot be opened ----

  lemma AnswerOpensNothing(a: Account, s: Call, i: Input)
    requires WellFormed(s) && AnswerDefined(a, s.ans, s.cseq, i.branch)
    requires !i.openOk && Opened(true) !in s.log
    ensures Opened(true) !in Answer(a, s, i).log
  {
    hide Invite, Ack, Credentials, StrCpy, Param;
  }

  lemma StepOpensNothing(a: Account, s: Call, i: Input)
    requires WellFormed(s) && Defined(a, s, i) && !i.openOk && Opened(true) !in s.log
    ensures Opened(true) !in Step(a, s, i).log
  {
    hide Invite, Ok200, Await, AnswerDefined, StrCpy, Readable, Received, Voice;
    if s.v == VStart && !s.callEnd && s.sip == InviteSent {
      AwaitOpensNothing(a, s, i);
    } else if s.v == VStart && !s.callEnd && s.sip == InviteCompleted {
      ConverseOpensNothing(s, i);
    }
  }

  lemma AwaitOpensNothing(a: Account, s: Call, i: Input)
    requires WellFormed(s) && !i.openOk && Opened(true) !in s.log
    requires i.sip.Some? ==>
               Readable(s, i.sip.value) && AnswerDefined(a, Received(s, i.sip.value).ans, s.cseq, i.branch)
    ensures Opened(true) !in Await(a, s, i).log
  {
    hide Parse, CString, AnswerDefined, Readable, Answer;
    if i.sip.Some? {
      var r := Received(s, i.sip.value);
      AnswerOpensNothing(a, Logged(r, [PolledSip, Answered(r.ans.code, r.ans.auth)]), i);
    }
  }

  lemma ConverseOpensNothing(s: Call, i: Input)
    requires WellFormed(s) && Opened(true) !in s.log
    requires i.rtp.Some? ==> |i.rtp.value| <= BUFSIZE
    requires i.sip.Some? ==> Readable(Talk(s, i), i.sip.value)
    ensures Opened(true) !in Converse(s, i).log
  {
    hide Parse, CString, Readable, Overlay;
  }

  lemma {:induction false} RunOpensNothing(a: Account, s: Call, inputs: seq<Input>)
    requires Initial(s) && Legal(a, s, inputs) && forall k :: 0 <= k < |inputs| ==> !inputs[k].openOk
    ensures Opened(true) !in Run(a, s, inputs).log
    decreases |inputs|
  {
    hide Step, Defined;
    if inputs != [] {
      var front, last := inputs[..|inputs| - 1], inputs[|inputs| - 1];
      RunOpensNothing(a, s, front);
      StepOpensNothing(a, Run(a, s, front), last);
    }
  }

  /** The same call when the output file cannot be opened: the program still writes the packet and
      closes the file, and no file is open at either. */
  lemma CallWithoutFile()
    ensures Initial(BEFORE) && Legal(CALLER, BEFORE, CallWith(false))
    ensures var log := Run(CALLER, BEFORE, CallWith(false)).log;
            && (exists k :: 0 <= k < |log| && log[k].Recorded? && !FoundOpen(log, k))
            && (exists k :: 0 <= k < |log| && log[k].Closed? && !FoundOpen(log, k))
  {
    hide Run, Legal, Count, FoundOpen;
    CallEnds(false);
    NeverOpens();
    RunOpensNothing(CALLER, BEFORE, CallWith(false));
    OutputFile(CALLER, BEFORE, CallWith(false));
  }

  lemma NeverOpens()
    ensures forall k :: 0 <= k < |CallWith(false)| ==> !CallWith(false)[k].openOk
  {
    CallIs(false);
  }

  // ---- A field that an earlier message left behind ----

  /** Eight characters that are a whole message to the parser, and as long as "BYE sip:". */
  const SHORT := "SIP 100\n"

  lemma MisleadingBehind() returns (leftover: string)
    ensures MISLEADING == "BYE sip" + [':'] + leftover && |leftover| < FIELD_SIZE - 8 && '\0' !in leftover
  {
    hide HeadersText;
    var rest := MisleadingParts();
    MisleadingIsShort();
    leftover := "x SIP/2.0" + rest;
    var t := "BYE sip" + [':'] + leftover;
    assert "BYE sip:x SIP/2.0" == "BYE sip" + [':'] + "x SIP/2.0";
    assert MISLEADING == t && t[8..] == leftover;
  }

  lemma NotInRequest(k: nat)
    requires k < 11
    ensures !Occurs("BYE sip", FIELD_NAMES[k]) && !Occurs(SHORT, FIELD_NAMES[k]) && Plain(FIELD_NAMES[k])
  {
    hide Find;
    FieldMarks(k);
    MarksInShort(k);
    MissingCharacter(SHORT, FIELD_NAMES[k], FIELD_MARKS[k]);
    if k == 7 {
      assert FIELD_NAMES[7] == "Supported" && |"Supported"| == 9 && |"BYE sip"| == 7;
      LongerName("BYE sip", "Supported");
    } else {
      MissingCharacter("BYE sip", FIELD_NAMES[k], FIELD_MARKS[k]);
    }
  }

  lemma MarksInShort(k: nat)
    requires k < 11
    ensures FIELD_MARKS[k] !in SHORT && (k != 7 ==> FIELD_MARKS[k] !in "BYE sip")
  {
    assert FIELD_MARKS[0] == 'V' && FIELD_MARKS[1] == 'F' && FIELD_MARKS[2] == 'T' && FIELD_MARKS[3] == 'D';
    assert FIELD_MARKS[4] == 'r' && FIELD_MARKS[5] == 'q' && FIELD_MARKS[6] == 'l' && FIELD_MARKS[7] == 'p';
    assert FIELD_MARKS[8] == 'C' && FIELD_MARKS[9] == 'W' && FIELD_MARKS[10] == 'C';
  }

  /** Behind the short message, the fields of the BYE are found. */
  lemma LeftoverIsFound(leftover: string, k: nat)
    requires k < 11 && MISLEADING == "BYE sip" + [':'] + leftover
    ensures FIELD_NAMES[k] != "" && Field(SHORT + leftover, FIELD_NAMES[k]) == Field(MISLEADING, FIELD_NAMES[k])
  {
    hide Find, Field, HeadersText;
    var name := FIELD_NAMES[k];
    NotInRequest(k);
    FindPastSeparator("BYE sip", ':', leftover, name);
    assert "BYE sip" + [':'] + leftover == "BYE sip:" + leftover;
    FieldBehind("BYE sip:", leftover, name);
    assert SHORT == "SIP 100" + "\n";
    LackingField("SIP 100", leftover, name);
  }

  lemma ShortStatus(leftover: string)
    ensures var t := SHORT + leftover;
            && Occurs(t, "SIP") && Occurs(t, " ") && Parse(t).code == 100 && Parse(t).command == ""
  {
    hide Find, Atoi, Parse;
    var t, tail := SHORT + leftover, "100\n" + leftover;
    assert t == "SIP" + [' '] + tail;
    FindCharacter("SIP", ' ', tail);
    assert t == "" + "SIP" + (" " + tail);
    OccursBetween("", "SIP", " " + tail);
    assert t[4..7] == "100";
    AtoiOf100();
    ParsedStatus(t);
  }

  lemma AtoiOf100()
    ensures Atoi("100") == 100
  {
    assert DigitsValue("100", 0) == DigitsValue("00", 1) == DigitsValue("0", 10) == DigitsValue("", 100);
  }

  /** A short message that arrives over the BYE in the buffer is read with the Via field of the BYE,
      though it has none. */
  lemma LeftoverIsTaken()
    ensures |MISLEADING| < BUFSIZE
    ensures var s := BEFORE.(buf := Overlay(Blank(), MISLEADING));
            && Readable(s, SHORT) && Received(s, SHORT).ans.code == 100
            && !Occurs(SHORT, "Via") && Received(s, SHORT).ans.via == "From:a\r"
  {
    hide Find, Field, HeadersText, Parse, Parsable, Storable, CString;
    var leftover := MisleadingBehind();
    MisleadingIsShort();
    var s := BEFORE.(buf := Overlay(Blank(), MISLEADING));
    var text := SHORT + leftover;
    ShortText(leftover);
    assert Overlay(s.buf, SHORT) == Overlay(Blank(), text);
    ShortIsSeen(leftover);
    ShortStatus(leftover);
    ShortIsStorable(text);
    NotInRequest(0);
    LeftoverIsFound(leftover, 0);
    MisleadingFields();
    ParsedFields(text);
  }

  lemma ShortText(leftover: string)
    requires |leftover| < FIELD_SIZE - 8 && '\0' !in leftover
    ensures var text := SHORT + leftover;
            && |text| < FIELD_SIZE && '\0' !in text
            && Occurs(Overlay(Blank(), text), "\0") && CString(Overlay(Blank(), text)) == text
  {
    hide Find;
    var text := SHORT + leftover;
    assert '\0' !in SHORT;
    assert Overlay(Blank(), text) == Overlay(Blank(), text + "\0");
    EndedText(Blank(), text);
  }

  lemma ShortIsSeen(leftover: string)
    requires MISLEADING == "BYE sip" + [':'] + leftover
    ensures Parsable(SHORT + leftover)
  {
    hide Find, Field, HeadersText;
    ShortStatus(leftover);
    MisleadingIsParsable();
    MisleadingStatus();
    forall k | 0 <= k < |FIELD_NAMES|
      ensures FIELD_NAMES[k] != "" && !Field(SHORT + leftover, FIELD_NAMES[k]).Unterminated?
    {
      LeftoverIsFound(leftover, k);
    }
  }
}
