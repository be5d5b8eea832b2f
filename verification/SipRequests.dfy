/** The texts sip_call.c sends besides the answer to BYE: the INVITE with its session
    description, the credentials, and the ACK; and what a receiver reads out of them. */
module SipRequests {
  import opened CText
  import opened SipText

  /** The arguments of a call, with the two numbers that the environment supplies as text. */
  datatype Account = Account(ownNumber: string, ownPass: string, ownIp: string, ownSipPort: string,
                             ownRtpPort: string, serverIp: string, phoneNumber: string, callId: string)

  // ---- The texts ----

  function SdpLines(a: Account): seq<string> {
    ["v=0",
     "o=LONIIS_test 1234567890 1234567890 IN IP4 " + a.ownIp,
     "s=LONIIS",
     "c=IN IP4 " + a.ownIp,
     "t=0 0",
     "m=audio " + a.ownRtpPort + " RTP/AVP 0 101",
     "a=rtpmap:0 PCMU/8000",
     "a=sendrecv",
     "a=rtpmap:101 telephone-event/8000",
     "a=fmtp:101 0-15",
     ""]
  }

  /** Each line with the line break behind it. */
  function LinesText(lines: seq<string>): string {
    if lines == [] then "" else LinesText(lines[..|lines| - 1]) + lines[|lines| - 1] + "\r\n"
  }

  function Sdp(a: Account): string {
    LinesText(SdpLines(a))
  }

  const CONTENT_LENGTH := "Content-Length: "

  /** The first six lines: who calls whom. */
  function CallLines(a: Account, branch: int): (lines: seq<string>)
    ensures |lines| == 6
  {
    ["INVITE sip:" + a.phoneNumber + "@" + a.serverIp + " SIP/2.0",
     "Via: SIP/2.0/UDP " + a.ownIp + ":" + a.ownSipPort + ";branch=z9hG4bK" + a.callId + Dec(branch) + ";rport",
     "From: \"" + a.ownNumber + "\" <sip:" + a.ownNumber + "@" + a.serverIp + ">;tag=123456789123456789",
     "Max-Forwards: 70",
     "To: sip:" + a.phoneNumber + "@" + a.serverIp,
     "Contact: <sip:" + a.ownNumber + "@" + a.ownIp + ">"]
  }

  /** The last six lines, up to the length of the body. */
  function ContentLines(a: Account, cseq: int): (lines: seq<string>)
    ensures |lines| == 6 && lines[1] == "CSeq: " + Dec(cseq) + " INVITE"
    ensures lines[5] == CONTENT_LENGTH + Dec(|Sdp(a)|)
  {
    ["Call-ID: " + a.callId,
     "CSeq: " + Dec(cseq) + " INVITE",
     "Allow: PRACK, INVITE, ACK" + ", BYE, CANCEL, UPDATE",
     "Supported: 100rel",
     "Content-Type: application/sdp",
     CONTENT_LENGTH + Dec(|Sdp(a)|)]
  }

  function InviteLines(a: Account, cseq: int, branch: int): (lines: seq<string>)
    ensures |lines| == 12 && lines[11] == CONTENT_LENGTH + Dec(|Sdp(a)|)
  {
    CallLines(a, branch) + ContentLines(a, cseq)
  }

  /** The text of CreateInvite. */
  function Invite(a: Account, cseq: int, branch: int, auth: string): string {
    LinesText(InviteLines(a, cseq, branch)) + auth + "\r\n\r\n" + Sdp(a)
  }

  function AckHeaders(m: SipMessage): seq<Header> {
    [Header("Via", m.via), Header("From", m.from), Header("Max-Forwards", " 70"), Header("To", m.to),
     Header("Contact", m.contact), Header("Call-ID", m.callId), Header("CSeq", m.cseq),
     Header("Content-Length", "   " + Dec(m.contentLength))]
  }

  function AckLine(a: Account): string {
    "ACK sip:" + a.phoneNumber + "@" + a.serverIp + " SIP/2.0"
  }

  /** The text of CreateAck. */
  function Ack(a: Account, m: SipMessage): string {
    AckLine(a) + "\r\n" + HeadersText(AckHeaders(m))
  }

  // ---- What the parser makes of an ACK ----

  /** An ACK as the parser sees it: its request line has a colon too, and is like a header. */
  function AckLines(a: Account, m: SipMessage): seq<Header> {
    [Header("ACK sip", a.phoneNumber + "@" + a.serverIp + " SIP/2.0")] + AckHeaders(m)
  }

  lemma AckIsHeaders(a: Account, m: SipMessage)
    ensures Ack(a, m) == HeadersText(AckLines(a, m))
  {
    var uri := a.phoneNumber + "@" + a.serverIp + " SIP/2.0";
    var request := Header("ACK sip", uri);
    assert AckLines(a, m)[1..] == AckHeaders(m);
    hide HeadersText, AckHeaders;
    FirstHeader(AckLines(a, m));
    assert "ACK sip:" == "ACK sip" + ":";
    assert HeaderText(request) == AckLine(a) + "\r\n";
  }

  /** Where those lines have the header with the i-th name. */
  function AckIndex(i: nat): nat {
    if i < 2 then i + 1 else i + 2
  }

  lemma AckLinesAre(a: Account, m: SipMessage)
    ensures var hs := AckLines(a, m);
            && |hs| == 9 && hs[0].name == "ACK sip" && hs[3] == Header("Max-Forwards", " 70")
            && hs[8] == Header("Content-Length", "   " + Dec(m.contentLength))
            && forall i :: 0 <= i < 6 ==> hs[AckIndex(i)] == Header(ANSWER_NAMES[i], AnswerValues(m)[i])
  {
  }

  lemma RequestIsClean(a: Account)
    requires '\r' !in AckLine(a)
    ensures Clean(Header("ACK sip", a.phoneNumber + "@" + a.serverIp + " SIP/2.0"))
  {
    var uri := a.phoneNumber + "@" + a.serverIp + " SIP/2.0";
    forall k | 0 <= k < |uri|
      ensures uri[k] != '\r'
    {
      assert AckLine(a)[8 + k] == uri[k];
    }
    BodyWithoutReturn(uri);
  }

  lemma AckIsClean(a: Account, m: SipMessage)
    requires CleanAnswer(m) && '\r' !in AckLine(a)
    ensures AllClean(AckLines(a, m))
  {
    hide Body, Dec, AnswerHeaders, AckLine;
    var hs := AckLines(a, m);
    AckLinesAre(a, m);
    AnswerIsClean(m);
    RequestIsClean(a);
    MaxForwards();
    var answer := AnswerHeaders(m);
    assert answer[6] == hs[8];
    forall k | 0 <= k < |hs|
      ensures Clean(hs[k])
    {
      if 1 <= k < 8 && k != 3 {
        var i := if k < 3 then k - 1 else k - 2;
        assert hs[AckIndex(i)] == answer[i];
      }
    }
  }

  lemma MaxForwards()
    ensures Body(" 70") == " 70" && Clean(Header("Max-Forwards", " 70"))
  {
  }

  /** The i-th name is in the name of its header and in no name before it. */
  lemma AckLinesHold(a: Account, m: SipMessage, i: nat)
    requires i < 6
    ensures AckIndex(i) < |AckLines(a, m)| && Occurs(AckLines(a, m)[AckIndex(i)].name, ANSWER_NAMES[i])
    ensures forall k :: 0 <= k < AckIndex(i) ==> !Occurs(AckLines(a, m)[k].name, ANSWER_NAMES[i])
  {
    hide Find;
    var hs, name := AckLines(a, m), ANSWER_NAMES[i];
    AckLinesAre(a, m);
    NameMarks(i);
    FindPrefix(name, name);
    hide AckLines;
    forall k | 0 <= k < AckIndex(i)
      ensures !Occurs(hs[k].name, name)
    {
      if k == 0 {
        NotInAck(i);
      } else if k == 3 {
        NotInMaxForwards(i);
      } else {
        var j := if k < 3 then k - 1 else k - 2;
        assert hs[k] == hs[AckIndex(j)];
        MissingCharacter(hs[k].name, name, MARKS[i]);
      }
    }
  }

  lemma NotInAck(i: nat)
    requires i < 6
    ensures !Occurs("ACK sip", ANSWER_NAMES[i])
  {
    hide Find;
    assert ANSWER_NAMES[0][0] == 'V' && ANSWER_NAMES[1][0] == 'F' && ANSWER_NAMES[2][0] == 'T';
    assert ANSWER_NAMES[3][3] == 't' && ANSWER_NAMES[4][6] == 'D' && ANSWER_NAMES[5][3] == 'q';
    var c := ['V', 'F', 'T', 't', 'D', 'q'][i];
    MissingCharacter("ACK sip", ANSWER_NAMES[i], c);
  }

  lemma NotInMaxForwards(i: nat)
    requires 2 <= i < 6
    ensures !Occurs("Max-Forwards", ANSWER_NAMES[i])
  {
    hide Find;
    NameMarks(i);
    assert MARKS[i] == 'T' || MARKS[i] == 'C' || MARKS[i] == 'D' || MARKS[i] == 'q';
    MissingCharacter("Max-Forwards", ANSWER_NAMES[i], MARKS[i]);
  }

  /** The parser recovers field `i` from an ACK exactly when the field was present and nothing in
      front of it misleads the search, be it in the request line. */
  lemma AckFieldRecovered(a: Account, m: SipMessage, i: nat)
    requires i < 6 && CleanAnswer(m) && '\r' !in AckLine(a)
    ensures AckIndex(i) < |AckLines(a, m)| && Field(Ack(a, m), ANSWER_NAMES[i]).Found?
    ensures Field(Ack(a, m), ANSWER_NAMES[i]) == Found(AnswerValues(m)[i])
       <==> Present(AnswerValues(m)[i]) && Harmless(AckLines(a, m), AckIndex(i), ANSWER_NAMES[i])
  {
    hide Find, Body, Field, AckHeaders, AckLine, Lookup, Harmless, Ack, HeadersText;
    var hs, name := AckLines(a, m), ANSWER_NAMES[i];
    NameMarks(i);
    AckLinesAre(a, m);
    AckIsHeaders(a, m);
    AckIsClean(a, m);
    FieldIsLookup(hs, name);
    AckLinesHold(a, m, i);
    ValueExactly(hs, AckIndex(i), name);
  }

  /** The six fields were present, and nothing in the ACK misleads the search for them. */
  predicate AckRecoverable(a: Account, m: SipMessage) {
    forall i :: 0 <= i < 6 ==>
      && ANSWER_NAMES[i] != "" && AckIndex(i) < |AckLines(a, m)|
      && Present(AnswerValues(m)[i]) && Harmless(AckLines(a, m), AckIndex(i), ANSWER_NAMES[i])
  }

  /** Parsing an ACK always gives the method name, and it gives the fields that were to be
      acknowledged exactly when all of them are recoverable. */
  lemma AckRoundTrip(a: Account, m: SipMessage)
    requires CleanAnswer(m) && '\r' !in AckLine(a)
    ensures var p := Parse(Ack(a, m));
            p.code == 0 && p.command == "ACK" && (SameFields(p, m) <==> AckRecoverable(a, m))
  {
    hide Find, Body, Field, Ack, Dec, AckLine, AckLines, Parse, Harmless, Atoi;
    AckCommand(a, m);
    ParsedStatus(Ack(a, m));
    ParsedFields(Ack(a, m));
    AckFieldRecovered(a, m, 0);
    AckFieldRecovered(a, m, 1);
    AckFieldRecovered(a, m, 2);
    AckFieldRecovered(a, m, 3);
    AckFieldRecovered(a, m, 4);
    AckFieldRecovered(a, m, 5);
  }

  lemma AckCommand(a: Account, m: SipMessage)
    ensures var text := Ack(a, m);
            Occurs(text, "SIP") && Find(text, " ") == 3 && |text| >= 7 && Atoi(text[4..7]) == 0 && text[..3] == "ACK"
  {
    hide Find, Atoi, Ack;
    var tail := AckParts(a, m);
    var text := Ack(a, m);
    FindCharacter("ACK", ' ', tail);
    assert text[4..7] == tail[..3] && text[..3] == "ACK";
    AtoiOfSip();
  }

  lemma AckParts(a: Account, m: SipMessage) returns (tail: string)
    ensures |tail| >= 3 && tail[..3] == "sip" && Ack(a, m) == "ACK" + [' '] + tail
    ensures Occurs(Ack(a, m), "SIP")
  {
    hide Find, HeadersText, AckHeaders;
    var uri, back := a.phoneNumber + "@" + a.serverIp + " ", "/2.0" + "\r\n" + HeadersText(AckHeaders(m));
    tail := "sip:" + uri + "SIP" + back;
    assert Ack(a, m) == "ACK" + [' '] + tail;
    OccursBetween("ACK sip:" + uri, "SIP", back);
    assert Ack(a, m) == "ACK sip:" + uri + "SIP" + back;
  }

  // ---- What a receiver makes of a message with a body ----

  const BLANK_LINE := "\r\n\r\n"

  /** The lines of a head. */
  function SplitLines(head: string): seq<string>
    decreases |head|
  {
    var i := Find(head, "\r\n");
    if i < 0 then [head] else [head[..i]] + SplitLines(head[i + 2..])
  }

  function JoinLines(lines: seq<string>): string
    requires lines != []
  {
    if |lines| == 1 then lines[0] else lines[0] + "\r\n" + JoinLines(lines[1..])
  }

  predicate IsLine(line: string) {
    line != "" && '\r' !in line
  }

  predicate AllLines(lines: seq<string>) {
    forall k :: 0 <= k < |lines| ==> IsLine(lines[k])
  }

  lemma {:induction false} FindLineEnd(line: string, t: string)
    requires '\r' !in line
    ensures Find(line + "\r\n" + t, "\r\n") == |line|
    decreases |line|
  {
    var all := line + "\r\n" + t;
    if line == "" {
      assert all[..2] == "\r\n";
    } else {
      assert all[0] == line[0] && all[1..] == line[1..] + "\r\n" + t;
      FindLineEnd(line[1..], t);
    }
  }

  lemma {:induction false} FindBlankLine(line: string, t: string)
    requires '\r' !in line
    ensures Find(line + BLANK_LINE + t, BLANK_LINE) == |line|
    decreases |line|
  {
    var all := line + BLANK_LINE + t;
    if line == "" {
      assert all[..4] == BLANK_LINE;
    } else {
      assert all[0] == line[0] && all[1..] == line[1..] + BLANK_LINE + t;
      FindBlankLine(line[1..], t);
    }
  }

  /** No blank line straddles a line break that is followed by text. */
  lemma {:induction false} SkipLine(line: string, t: string)
    requires '\r' !in line && t != "" && t[0] != '\r' && Occurs(t, BLANK_LINE)
    ensures Find(line + "\r\n" + t, BLANK_LINE) == |line| + 2 + Find(t, BLANK_LINE)
    decreases |line|
  {
    var all := line + "\r\n" + t;
    if line == "" {
      assert all[2] == t[0];
      assert all[1..] == "\n" + t && all[1..][1..] == t;
    } else {
      assert all[0] == line[0] && all[1..] == line[1..] + "\r\n" + t;
      SkipLine(line[1..], t);
    }
  }

  /** The first blank line is the one behind the last line. */
  lemma {:induction false} HeadEnds(lines: seq<string>, body: string)
    requires lines != [] && AllLines(lines)
    ensures Find(JoinLines(lines) + BLANK_LINE + body, BLANK_LINE) == |JoinLines(lines)|
    decreases |lines|
  {
    hide Find;
    if |lines| == 1 {
      FindBlankLine(lines[0], body);
    } else {
      var rest := lines[1..];
      var t := JoinLines(rest) + BLANK_LINE + body;
      HeadEnds(rest, body);
      assert t[0] == rest[0][0];
      SkipLine(lines[0], t);
      assert JoinLines(lines) + BLANK_LINE + body == lines[0] + "\r\n" + t;
    }
  }

  lemma {:induction false} SplitJoined(lines: seq<string>)
    requires lines != [] && AllLines(lines)
    ensures SplitLines(JoinLines(lines)) == lines
    decreases |lines|
  {
    hide Find;
    if |lines| == 1 {
      MissingCharacter(lines[0], "\r\n", '\r');
    } else {
      var rest := lines[1..];
      FindLineEnd(lines[0], JoinLines(rest));
      SplitJoined(rest);
      var head := JoinLines(lines);
      assert head == lines[0] + "\r\n" + JoinLines(rest);
      assert head[..|lines[0]|] == lines[0];
      assert head[|lines[0]| + 2..] == JoinLines(rest);
      assert lines == [lines[0]] + rest;
    }
  }

  lemma {:induction false} JoinedLast(lines: seq<string>, last: string)
    requires lines != []
    ensures JoinLines(lines + [last]) == JoinLines(lines) + "\r\n" + last
    decreases |lines|
  {
    if |lines| > 1 {
      JoinedLast(lines[1..], last);
      assert (lines + [last])[1..] == lines[1..] + [last];
    } else {
      assert (lines + [last])[1..] == [last];
    }
  }

  lemma {:induction false} LinesAreJoined(lines: seq<string>)
    requires lines != []
    ensures LinesText(lines) == JoinLines(lines) + "\r\n"
  {
    if |lines| > 1 {
      var front, last := lines[..|lines| - 1], lines[|lines| - 1];
      LinesAreJoined(front);
      JoinedLast(front, last);
      assert lines == front + [last];
    } else {
      assert LinesText(lines) == LinesText([]) + lines[0] + "\r\n";
    }
  }

  predicate CleanAccount(a: Account) {
    && '\r' !in a.ownNumber && '\r' !in a.ownIp && '\r' !in a.ownSipPort
    && '\r' !in a.serverIp && '\r' !in a.phoneNumber && '\r' !in a.callId
  }

  lemma NumberHasNoReturn(n: int)
    ensures '\r' !in Dec(n)
  {
    DecCharacters(n);
  }

  lemma LongLiterals()
    ensures IsLine("Allow: PRACK, INVITE, ACK" + ", BYE, CANCEL, UPDATE")
    ensures IsLine("Content-Type: application/sdp") && IsLine("Supported: 100rel")
  {
    assert '\r' !in "Allow: PRACK, INVITE, ACK" && '\r' !in ", BYE, CANCEL, UPDATE";
  }

  lemma CallLinesAreLines(a: Account, branch: int)
    requires CleanAccount(a)
    ensures AllLines(CallLines(a, branch))
  {
    hide Dec;
    ViaIsLine(a, branch);
    FromIsLine(a);
    var lines := CallLines(a, branch);
    hide IsLine;
    assert IsLine(lines[1]) && IsLine(lines[2]);
    OtherCallLines(a, branch);
  }

  lemma ViaIsLine(a: Account, branch: int)
    requires CleanAccount(a)
    ensures IsLine("Via: SIP/2.0/UDP " + a.ownIp + ":" + a.ownSipPort + ";branch=z9hG4bK" + a.callId
                   + Dec(branch) + ";rport")
  {
    hide Dec;
    NumberHasNoReturn(branch);
  }

  lemma FromIsLine(a: Account)
    requires CleanAccount(a)
    ensures IsLine("From: \"" + a.ownNumber + "\" <sip:" + a.ownNumber + "@" + a.serverIp + ">;tag=123456789123456789")
  {
    assert '\r' !in ">;tag=123456789123456789";
  }

  lemma OtherCallLines(a: Account, branch: int)
    requires CleanAccount(a)
    ensures var lines := CallLines(a, branch);
            IsLine(lines[0]) && IsLine(lines[3]) && IsLine(lines[4]) && IsLine(lines[5])
  {
    hide Dec;
    var lines := CallLines(a, branch);
    assert IsLine(lines[0]);
    assert IsLine(lines[3]);
    assert IsLine(lines[4]);
    assert IsLine(lines[5]);
  }

  lemma ContentLinesAreLines(a: Account, cseq: int)
    requires CleanAccount(a)
    ensures AllLines(ContentLines(a, cseq))
  {
    hide Dec, Sdp;
    NumberHasNoReturn(cseq);
    NumberHasNoReturn(|Sdp(a)|);
    LongLiterals();
    var lines := ContentLines(a, cseq);
    assert IsLine(lines[0]) && IsLine(lines[1]) && IsLine(lines[2]);
    assert IsLine(lines[3]) && IsLine(lines[4]) && IsLine(lines[5]);
  }

  lemma InviteLinesAreLines(a: Account, cseq: int, branch: int)
    requires CleanAccount(a)
    ensures AllLines(InviteLines(a, cseq, branch))
  {
    hide CallLines, ContentLines;
    CallLinesAreLines(a, branch);
    ContentLinesAreLines(a, cseq);
  }

  /** What a receiver gets from an INVITE that is cut at its first blank line: the lines as they
      were printed, and as body the session description; without credentials, the description
      with a line break in front of it. */
  lemma InviteIsRead(a: Account, cseq: int, branch: int, auth: string)
    requires CleanAccount(a) && '\r' !in auth
    ensures var text, lines := Invite(a, cseq, branch, auth), InviteLines(a, cseq, branch);
            var i := Find(text, BLANK_LINE);
            && i >= 0
            && SplitLines(text[..i]) == (if auth == "" then lines else lines + [auth])
            && text[i + 4..] == (if auth == "" then "\r\n" + Sdp(a) else Sdp(a))
  {
    hide Find, Sdp, InviteLines, SplitLines, JoinLines, LinesText;
    var lines := InviteLines(a, cseq, branch);
    InviteLinesAreLines(a, cseq, branch);
    LinesAreJoined(lines);
    var all, body := if auth == "" then lines else lines + [auth], if auth == "" then "\r\n" + Sdp(a) else Sdp(a);
    if auth != "" {
      JoinedLast(lines, auth);
    }
    var text := Invite(a, cseq, branch, auth);
    assert text == JoinLines(all) + BLANK_LINE + body;
    HeadEnds(all, body);
    SplitJoined(all);
    assert text[..|JoinLines(all)|] == JoinLines(all);
  }

  /** The number in the Content-Length line is the length of the body that follows exactly when
      credentials were printed; the INVITE without them announces two bytes too few. */
  lemma ContentLengthIsRight(a: Account, cseq: int, branch: int, auth: string)
    requires CleanAccount(a) && '\r' !in auth
    ensures var text := Invite(a, cseq, branch, auth);
            var i := Find(text, BLANK_LINE);
            && i >= 0 && |SplitLines(text[..i])| >= 12
            && CONTENT_LENGTH <= SplitLines(text[..i])[11]
            && (Atoi(SplitLines(text[..i])[11][16..]) == |text[i + 4..]| <==> auth != "")
  {
    hide Find, Sdp, SplitLines, Atoi, Dec;
    InviteIsRead(a, cseq, branch, auth);
    var n := |Sdp(a)|;
    AtoiOfDec(n, "");
    assert Dec(n) + "" == Dec(n);
    assert (CONTENT_LENGTH + Dec(n))[16..] == Dec(n);
  }

  /** The number that a receiver reads in the CSeq line of an INVITE. */
  function CSeqOf(text: string): int {
    var i := Find(text, BLANK_LINE);
    if i < 0 || |SplitLines(text[..i])| < 8 || |SplitLines(text[..i])[7]| < 6 then 0
    else Atoi(SplitLines(text[..i])[7][6..])
  }

  /** It is the number that was printed. */
  lemma CSeqIsRead(a: Account, cseq: int, branch: int, auth: string)
    requires CleanAccount(a) && '\r' !in auth
    ensures CSeqOf(Invite(a, cseq, branch, auth)) == cseq
  {
    hide Find, Sdp, SplitLines, Atoi, Dec, Invite, CallLines;
    InviteIsRead(a, cseq, branch, auth);
    var lines := InviteLines(a, cseq, branch);
    assert lines[7] == ContentLines(a, cseq)[1] == "CSeq: " + (Dec(cseq) + " INVITE");
    assert lines[7][6..] == Dec(cseq) + " INVITE";
    AtoiOfDec(cseq, " INVITE");
  }

  // ---- Credentials ----

  /** The pieces of the credentials between quotation marks and around them. */
  function AuthPieces(user: string, realm: string, nonce: string, uri: string, response: string): seq<string> {
    ["Authorization: Digest username=", user, ",realm=", realm, ",nonce=", nonce, ",uri=", uri,
     ",response=", response, ",algorithm=MD5"]
  }

  function QuoteJoin(pieces: seq<string>): string {
    if pieces == [] then ""
    else if |pieces| == 1 then pieces[0]
    else pieces[0] + ['"'] + QuoteJoin(pieces[1..])
  }

  /** The text that CreateAuthString prints. */
  function AuthText(user: string, realm: string, nonce: string, uri: string, response: string): string {
    QuoteJoin(AuthPieces(user, realm, nonce, uri, response))
  }

  predicate QuoteFree(pieces: seq<string>) {
    forall k :: 0 <= k < |pieces| ==> '"' !in pieces[k]
  }

  /** What GetParam yields, told on the pieces: the piece after the first one with the name in it. */
  function ParamLookup(pieces: seq<string>, name: string): Scan
    requires name != ""
  {
    if pieces == [] then Missing
    else if Occurs(pieces[0], name) then if |pieces| > 2 then Found(pieces[1]) else Unterminated
    else ParamLookup(pieces[1..], name)
  }

  lemma NoQuote(s: string)
    requires '"' !in s
    ensures Find(s, "\"") == -1
  {
    MissingCharacter(s, "\"", '"');
  }

  lemma ParamHit(pieces: seq<string>, name: string)
    requires name != "" && '"' !in name && QuoteFree(pieces) && pieces != []
    requires Occurs(pieces[0], name)
    ensures Param(QuoteJoin(pieces), name) == ParamLookup(pieces, name)
  {
    hide Find, ParamBehindName;
    var p0 := pieces[0];
    var i := Find(p0, name);
    var rest := p0[i + 1..];
    if |pieces| == 1 {
      NothingBehind(rest);
    } else {
      var tail := QuoteJoin(pieces[1..]);
      FindInFront(p0, ['"'] + tail, name);
      assert QuoteJoin(pieces) == p0 + (['"'] + tail);
      DropEnd(p0, ['"'] + tail, i + 1);
      BetweenQuotes(rest, pieces[1..]);
    }
  }

  /** Behind a piece that ends the search, the next piece is taken if it ends as well. */
  lemma BetweenQuotes(rest: string, pieces: seq<string>)
    requires '"' !in rest && QuoteFree(pieces) && pieces != []
    ensures ParamBehindName(rest + (['"'] + QuoteJoin(pieces)))
         == if |pieces| > 1 then Found(pieces[0]) else Unterminated
  {
    hide Find, ParamBehindName;
    var tail := QuoteJoin(pieces);
    BehindQuote(rest, tail);
    if |pieces| == 1 {
      NoQuote(pieces[0]);
    } else {
      var more := QuoteJoin(pieces[1..]);
      assert tail == pieces[0] + ['"'] + more;
      FindCharacter(pieces[0], '"', more);
      assert tail[..|pieces[0]|] == pieces[0];
    }
  }

  lemma BehindQuote(rest: string, tail: string)
    requires '"' !in rest
    ensures ParamBehindName(rest + (['"'] + tail))
         == if Occurs(tail, "\"") then Found(tail[..Find(tail, "\"")]) else Unterminated
  {
    hide Find;
    var m1 := rest + (['"'] + tail);
    assert m1 == rest + ['"'] + tail;
    FindCharacter(rest, '"', tail);
    assert m1[|rest| + 1..] == tail;
  }

  lemma NothingBehind(rest: string)
    requires '"' !in rest
    ensures ParamBehindName(rest) == Unterminated
  {
    NoQuote(rest);
  }

  lemma ParamBehind(a: string, b: string, name: string)
    requires name != ""
    requires Find(a + b, name) == if Occurs(b, name) then |a| + Find(b, name) else -1
    ensures Param(a + b, name) == Param(b, name)
  {
    hide Find, ParamBehindName, Param;
    if Occurs(b, name) {
      DropConcat(a, b, Find(b, name) + 1);
    }
    ParamIsRest(a + b, name);
    ParamIsRest(b, name);
  }

  lemma ParamIsRest(mess: string, name: string)
    requires name != ""
    ensures Param(mess, name) == if Occurs(mess, name) then ParamBehindName(mess[Find(mess, name) + 1..]) else Missing
  {
    hide Find, ParamBehindName;
  }

  /** For any pieces without quotation marks, GetParam reads the joined text as ParamLookup says. */
  lemma {:induction false} ParamIsLookup(pieces: seq<string>, name: string)
    requires name != "" && '"' !in name && QuoteFree(pieces)
    ensures Param(QuoteJoin(pieces), name) == ParamLookup(pieces, name)
    decreases |pieces|
  {
    if pieces != [] && Occurs(pieces[0], name) {
      ParamHit(pieces, name);
    } else if |pieces| > 1 {
      var tail := QuoteJoin(pieces[1..]);
      FindPastSeparator(pieces[0], '"', tail, name);
      ParamBehind(pieces[0] + ['"'], tail, name);
      ParamIsLookup(pieces[1..], name);
    }
  }

  lemma {:induction false} ParamLookupAt(pieces: seq<string>, k: nat, name: string)
    requires name != "" && k + 2 < |pieces| && Occurs(pieces[k], name)
    requires forall j :: 0 <= j < k ==> !Occurs(pieces[j], name)
    ensures ParamLookup(pieces, name) == Found(pieces[k + 1])
    decreases k
  {
    hide Find;
    if k > 0 {
      ParamLookupAt(pieces[1..], k - 1, name);
    }
  }

  predicate NoQuotes(user: string, realm: string, nonce: string, uri: string, response: string) {
    '"' !in user && '"' !in realm && '"' !in nonce && '"' !in uri && '"' !in response
  }

  lemma AuthLiterals()
    ensures !Occurs("Authorization: Digest username=", "realm") && !Occurs("Authorization: Digest username=", "nonce")
    ensures !Occurs(",realm=", "nonce") && Occurs(",realm=", "realm") && Occurs(",nonce=", "nonce")
  {
    hide Find;
    MissingCharacter("Authorization: Digest username=", "realm", 'l');
    MissingCharacter("Authorization: Digest username=", "nonce", 'c');
    MissingCharacter(",realm=", "nonce", 'c');
    assert ",realm="[1..6] == "realm" && ",nonce="[1..6] == "nonce";
    FindIsFirst(",realm=", "realm", 1);
    FindIsFirst(",nonce=", "nonce", 1);
  }

  /** What is read as the realm of printed credentials: the realm, unless the user name holds the
      word realm; then it is the text between user name and realm. */
  lemma AuthRealmRead(user: string, realm: string, nonce: string, uri: string, response: string)
    requires NoQuotes(user, realm, nonce, uri, response)
    ensures Param(AuthText(user, realm, nonce, uri, response), "realm")
         == Found(if Occurs(user, "realm") then ",realm=" else realm)
  {
    hide Find, QuoteJoin, Param;
    var pieces := AuthPieces(user, realm, nonce, uri, response);
    AuthPiecesAreQuoteFree(user, realm, nonce, uri, response);
    ParamIsLookup(pieces, "realm");
    AuthLiterals();
    ParamLookupAt(pieces, if Occurs(user, "realm") then 1 else 2, "realm");
  }

  /** The same for the nonce, which the realm may also hide. */
  lemma AuthNonceRead(user: string, realm: string, nonce: string, uri: string, response: string)
    requires NoQuotes(user, realm, nonce, uri, response)
    ensures Param(AuthText(user, realm, nonce, uri, response), "nonce")
         == Found(if Occurs(user, "nonce") then ",realm="
                  else if Occurs(realm, "nonce") then ",nonce=" else nonce)
  {
    hide Find, QuoteJoin, Param;
    var pieces := AuthPieces(user, realm, nonce, uri, response);
    AuthPiecesAreQuoteFree(user, realm, nonce, uri, response);
    ParamIsLookup(pieces, "nonce");
    AuthLiterals();
    ParamLookupAt(pieces, if Occurs(user, "nonce") then 1 else if Occurs(realm, "nonce") then 3 else 4, "nonce");
  }

  lemma AuthPiecesAreQuoteFree(user: string, realm: string, nonce: string, uri: string, response: string)
    requires NoQuotes(user, realm, nonce, uri, response)
    ensures QuoteFree(AuthPieces(user, realm, nonce, uri, response))
  {
  }

  /** What GetParam takes from a challenge has no quotation mark in it. */
  lemma ParamHasNoQuote(mess: string, name: string)
    requires name != ""
    ensures '"' !in Param(mess, name).Text()
  {
    hide Find;
    if Param(mess, name).Found? {
      var m1 := mess[Find(mess, name) + 1..];
      FirstCharacter(m1[Find(m1, "\"") + 1..], '"');
    }
  }

  /** It has no carriage return either when the text searched has none but at its end: a quotation
      mark follows it. */
  lemma ParamHasNoReturn(mess: string, name: string)
    requires name != "" && '\r' !in Body(mess)
    ensures '\r' !in Param(mess, name).Text()
  {
    hide Find;
    if Param(mess, name).Found? {
      var i := Find(mess, name) + 1;
      var m1 := mess[i..];
      var n := i + Find(m1, "\"") + 1;
      var m2 := mess[n..];
      assert m1[n - i..] == m2;
      FirstCharacter(m2, '"');
      var text := m2[..Find(m2, "\"")];
      forall k | 0 <= k < |text|
        ensures text[k] != '\r'
      {
        assert text[k] == mess[n + k] == Body(mess)[n + k];
      }
    }
  }

  /** A character that is in no piece and is no quotation mark is not in the joined text. */
  lemma {:induction false} JoinLacks(pieces: seq<string>, c: char)
    requires c != '"' && forall k :: 0 <= k < |pieces| ==> c !in pieces[k]
    ensures c !in QuoteJoin(pieces)
    decreases |pieces|
  {
    if |pieces| > 1 {
      JoinLacks(pieces[1..], c);
    }
  }

  lemma AuthHasNoReturn(user: string, realm: string, nonce: string, uri: string, response: string)
    requires '\r' !in user && '\r' !in realm && '\r' !in nonce && '\r' !in uri && '\r' !in response
    ensures '\r' !in AuthText(user, realm, nonce, uri, response)
  {
    hide QuoteJoin;
    AuthMarks();
    JoinLacks(AuthPieces(user, realm, nonce, uri, response), '\r');
  }

  lemma AuthMarks()
    ensures '\r' !in "Authorization: Digest username=" && '\r' !in ",realm=" && '\r' !in ",nonce="
    ensures '\r' !in ",uri=" && '\r' !in ",response=" && '\r' !in ",algorithm=MD5"
  {
  }
}
