/** What a received text makes the program do, told on the text itself and with every number and word
    written out. */
module SipReactions {
  import opened Buffers
  import opened Words
  import opened CText
  import opened SipText
  import opened SipHeaders
  import opened SipRequests
  import opened SipCall
  import opened SipRuns
  import opened SipInvites
  import opened SipDialog

  /** The C string that is parsed after a receive. */
  function Seen(s: Call, data: string): string
    requires WellFormed(s) && Readable(s, data)
  {
    CString(Overlay(s.buf, data))
  }

  /** While the answer to the INVITE is awaited, 100 and 180 change nothing but the text held; 401 is
      answered by an INVITE with the next number and new credentials; 200 opens the output file, is
      acknowledged and establishes the call; every other code is acknowledged and ends it as refused. */
  lemma AnswerByCode(a: Account, s: Call, i: Input)
    requires WellFormed(s) && s.sip == InviteSent && SessionDefined(a, s, i) && i.sip.Some?
    ensures var t := Session(a, s, i);
            var code, auth := t.ans.code, t.ans.auth;
            && t.ans == Parse(Seen(s, i.sip.value))
            && (code == 100 || code == 180 ==>
                  t == s.(buf := t.buf, ans := t.ans, log := s.log + [PolledSip, Answered(code, auth)]))
            && (code == 401 ==>
                  && t == s.(buf := t.buf, ans := t.ans, realm := Param(auth, "realm").Text(),
                             nonce := Param(auth, "nonce").Text(), cseq := s.cseq + 1,
                             authString := Credentials(a, t.realm, t.nonce), log := t.log)
                  && t.log == s.log + [PolledSip, Answered(401, auth),
                                       Invited(s.cseq + 1, Invite(a, s.cseq + 1, i.branch, t.authString), i.sendOk)])
            && (code == 200 ==>
                  && t == s.(buf := t.buf, ans := t.ans, sip := InviteCompleted, log := t.log)
                  && t.log == s.log + [PolledSip, Answered(200, auth), Opened(i.openOk), Acked(Ack(a, t.ans))])
            && (code != 100 && code != 180 && code != 401 && code != 200 ==>
                  && t == s.(buf := t.buf, ans := t.ans, sip := ByeCompleted, returnCode := 2, log := t.log)
                  && t.log == s.log + [PolledSip, Answered(code, auth), Acked(Ack(a, t.ans))])
  {
    hide Parse, Invite, Ack, Credentials, Param, CString, StrCpy, Readable, ChallengeDefined;
    var r := Received(s, i.sip.value);
    assert Session(a, s, i).ans == r.ans;
  }

  // ---- From the received text ----

  /** What is parsed is the received text with a remainder of the old buffer behind it. */
  lemma SeenText(s: Call, data: string) returns (tail: string)
    requires WellFormed(s) && Readable(s, data) && '\0' !in data
    ensures Seen(s, data) == data + tail
  {
    hide Find, Parsable, Storable;
    ReceivedText(s.buf, data);
    tail := CString(s.buf[|data|..]);
  }

  lemma StatusSeen(s: Call, n: int, rest: string)
    requires WellFormed(s) && 100 <= n <= 999 && '\0' !in "SIP/2.0 " + Dec(n) + rest
    requires Readable(s, "SIP/2.0 " + Dec(n) + rest)
    ensures var p := Parse(Seen(s, "SIP/2.0 " + Dec(n) + rest)); p.code == n && p.command == ""
  {
    hide Parse, Dec, Seen, Readable;
    var data := "SIP/2.0 " + Dec(n) + rest;
    var tail := SeenText(s, data);
    StatusIsRead(n, rest + tail);
    assert data + tail == "SIP/2.0 " + Dec(n) + (rest + tail);
  }

  /** A status line with the number n decides: 100, 180 and 401 leave the INVITE pending, 200 and no
      other number establishes the call, and every other number ends it with return code 2. The
      sequence number goes up for 401 alone; nothing is sent for 100 and 180, and for the others one
      message, an INVITE for 401 and an ACK for the rest. */
  lemma StatusDecides(a: Account, s: Call, i: Input, n: int, rest: string)
    requires WellFormed(s) && s.sip == InviteSent && SessionDefined(a, s, i)
    requires 100 <= n <= 999 && i.sip == Some("SIP/2.0 " + Dec(n) + rest) && '\0' !in i.sip.value
    ensures var t := Session(a, s, i);
            var auth := t.ans.auth;
            && t.ans.code == n
            && t.sip == (if n == 100 || n == 180 || n == 401 then InviteSent
                         else if n == 200 then InviteCompleted else ByeCompleted)
            && t.returnCode == (if n == 100 || n == 180 || n == 401 || n == 200 then s.returnCode else 2)
            && t.cseq == s.cseq + (if n == 401 then 1 else 0)
            && (n != 401 ==> t.authString == s.authString)
            && t.log == s.log + [PolledSip, Answered(n, auth)]
                        + (if n == 100 || n == 180 then []
                           else if n == 401 then
                             [Invited(s.cseq + 1, Invite(a, s.cseq + 1, i.branch, t.authString), i.sendOk)]
                           else if n == 200 then [Opened(i.openOk), Acked(Ack(a, t.ans))]
                           else [Acked(Ack(a, t.ans))])
  {
    hide Session, Parse, Dec, Seen, Invite, Ack, Credentials, Param;
    AnswerByCode(a, s, i);
    StatusSeen(s, n, rest);
  }

  /** A text without the word SIP, sent by anyone, ends the pending call as refused. */
  lemma NoSipRefuses(a: Account, s: Call, i: Input)
    requires WellFormed(s) && s.sip == InviteSent && SessionDefined(a, s, i) && i.sip.Some?
    requires !Occurs(Seen(s, i.sip.value), "SIP")
    ensures var t := Session(a, s, i);
            && t.ans == SipMessage(0, "", "", "", "", "", "", "", "", "", "", "", 0)
            && t.sip == ByeCompleted && t.returnCode == 2
            && t.log == s.log + [PolledSip, Answered(0, ""), Acked(Ack(a, t.ans))]
  {
    hide Session, Parse, Seen, Ack, Find, Invite, Credentials, Param;
    AnswerByCode(a, s, i);
    NothingParsed(Seen(s, i.sip.value));
  }

  /** In the established call, a request makes the program answer and leave exactly when its first
      word is BYE; what is received on the SIP socket changes nothing else in the call's state. */
  lemma CommandDecides(a: Account, s: Call, i: Input, word: string, rest: string)
    requires WellFormed(s) && s.sip == InviteCompleted && SessionDefined(a, s, i)
    requires i.sip == Some(word + " " + rest) && '\0' !in i.sip.value
    requires ' ' !in word && |rest| >= 3 && Atoi(rest[..3]) == 0 && Occurs(word + " " + rest, "SIP")
    ensures var t := Session(a, s, i);
            && t.sip == (if word == "BYE" then ByeSent else InviteCompleted)
            && t == Talk(s, i).(buf := t.buf, ans := t.ans, sip := t.sip, log := Talk(s, i).log + [PolledSip])
  {
    hide Find, Atoi, Parse, Seen, Readable, Talk;
    var data := i.sip.value;
    var u := Talk(s, i);
    var tail := SeenText(u, data);
    FindInFront(data, tail, "SIP");
    assert data + tail == word + " " + (rest + tail);
    assert (rest + tail)[..3] == rest[..3];
    CommandIsRead(word, rest + tail);
    TalkKeepsState(s, i);
    CommandActs(a, s, i);
  }

  lemma TalkKeepsState(s: Call, i: Input)
    requires WellFormed(s) && (i.rtp.Some? ==> |i.rtp.value| <= BUFSIZE)
    ensures Talk(s, i).sip == s.sip
  {
  }

  lemma CommandActs(a: Account, s: Call, i: Input)
    requires WellFormed(s) && s.sip == InviteCompleted && SessionDefined(a, s, i) && i.sip.Some?
    ensures Readable(Talk(s, i), i.sip.value)
    ensures var t := Session(a, s, i);
            var bye := Parse(Seen(Talk(s, i), i.sip.value)).command == "BYE";
            t == Talk(s, i).(buf := t.buf, ans := t.ans, sip := if bye then ByeSent else Talk(s, i).sip,
                             log := Talk(s, i).log + [PolledSip])
  {
    hide Parse, Talk, Readable, CString;
  }

  // ---- A challenge, from the received text to the credentials ----

  /** What GetParam finds is found as well when more text follows. */
  lemma ParamStays(mess: string, tail: string, name: string)
    requires name != "" && Param(mess, name).Found?
    ensures Param(mess + tail, name) == Param(mess, name)
  {
    hide Find, ParamBehindName;
    var i := Find(mess, name);
    FindInFront(mess, tail, name);
    DropEnd(mess, tail, i + 1);
    ParamBehindStays(mess[i + 1..], tail);
  }

  lemma ParamBehindStays(m1: string, tail: string)
    requires ParamBehindName(m1).Found?
    ensures ParamBehindName(m1 + tail) == ParamBehindName(m1)
  {
    hide Find;
    var i := Find(m1, "\"");
    var m2 := m1[i + 1..];
    FindInFront(m1, tail, "\"");
    DropEnd(m1, tail, i + 1);
    FindInFront(m2, tail, "\"");
    TakeFront(m2, tail, Find(m2, "\""));
  }

  /** The text holds name="value", and holds the name nowhere before that. */
  predicate Holds(text: string, name: string, value: string, before: string)
    requires name != ""
  {
    && '"' !in name && '"' !in value
    && Find(text, name) == |before| && before + name + "=\"" + value + "\"" <= text
  }

  lemma HeldIsRead(text: string, name: string, value: string, before: string)
    requires name != "" && Holds(text, name, value, before)
    ensures Param(text, name) == Found(value)
  {
    hide Find;
    var m1, more := text[|before| + 1..], text[|before + name + "=\"" + value + "\""|..];
    assert text == before + name + "=\"" + value + "\"" + more;
    var front := name[1..] + "=";
    assert m1 == front + ['"'] + (value + ['"'] + more);
    FindCharacter(front, '"', value + ['"'] + more);
    assert m1[|front| + 1..] == value + ['"'] + more;
    FindCharacter(value, '"', more);
    assert (value + ['"'] + more)[..|value|] == value;
  }

  /** The challenge header of a message is the k-th. */
  predicate ChallengeAt(hs: seq<Header>, k: nat) {
    && AllClean(hs) && k < |hs| && Occurs(hs[k].name, "WWW-Authenticate")
    && forall j :: 0 <= j < k ==> !Occurs(hs[j].name, "WWW-Authenticate")
  }

  /** The parser takes that header for the challenge exactly when no value before it misleads the
      search. */
  lemma ChallengeIsParsed(s: Call, line: string, hs: seq<Header>, k: nat)
    requires WellFormed(s) && ChallengeAt(hs, k) && !Occurs(line, "WWW-Authenticate")
    requires "SIP/2.0 401" <= line && '\0' !in line + "\r\n" + HeadersText(hs)
    requires Readable(s, line + "\r\n" + HeadersText(hs))
    ensures var p := Parse(Seen(s, line + "\r\n" + HeadersText(hs)));
            p.code == 401 && (p.auth == Body(hs[k].value) + "\r" <==> Harmless(hs, k, "WWW-Authenticate"))
  {
    hide Find, Field, Parse, Dec, Seen, Readable, HeadersText, Lookup, Body, Harmless, Clean;
    var data := line + "\r\n" + HeadersText(hs);
    var tail := SeenText(s, data);
    DecOf401();
    var rest := line[11..] + "\r\n" + HeadersText(hs) + tail;
    assert line == "SIP/2.0 " + "401" + line[11..];
    StatusIsRead(401, rest);
    assert data + tail == "SIP/2.0 " + Dec(401) + rest;
    NamesArePlain();
    FieldOfMessage(line, hs, "WWW-Authenticate");
    LookupExactly(hs, k, "WWW-Authenticate");
    FoundStays(data, tail, "WWW-Authenticate");
    FindPrefix(data + tail, "SIP");
    ParsedText(data + tail);
  }

  lemma ClearOfReturns(h: Header)
    requires Clean(h)
    ensures '\r' !in Body(Body(h.value))
  {
  }

  lemma DecOf401()
    ensures Dec(401) == "401"
  {
    assert DecNat(4) == "4" && DecNat(40) == DecNat(4) + "0" && DecNat(401) == DecNat(40) + "1";
  }

  /** A 401 whose challenge header holds realm="..." and nonce="..." makes the program send, in the
      same step, an INVITE with the next number and the credentials for that realm and that nonce. */
  lemma ChallengeIsAnswered(a: Account, s: Call, i: Input, line: string, hs: seq<Header>, k: nat,
                            realm: string, nonce: string, front: string, middle: string)
    requires WellFormed(s) && s.sip == InviteSent && SessionDefined(a, s, i)
    requires ChallengeAt(hs, k) && Harmless(hs, k, "WWW-Authenticate")
    requires "SIP/2.0 401" <= line && !Occurs(line, "WWW-Authenticate")
    requires i.sip == Some(line + "\r\n" + HeadersText(hs)) && '\0' !in i.sip.value
    requires Holds(Body(hs[k].value), "realm", realm, front) && Holds(Body(hs[k].value), "nonce", nonce, middle)
    ensures var t := Session(a, s, i);
            var invite := Invite(a, s.cseq + 1, i.branch, Credentials(a, realm, nonce));
            && t.sip == InviteSent && t.cseq == s.cseq + 1 && t.authString == Credentials(a, realm, nonce)
            && t.log == s.log + [PolledSip, Answered(401, t.ans.auth), Invited(s.cseq + 1, invite, i.sendOk)]
            && (CleanAccount(a) ==> ReadsAsInvite(invite, s.cseq + 1, Credentials(a, realm, nonce)))
  {
    hide ReadsAsInvite, CleanAccount, Session, Parse, Seen, Readable, Invite, Ack, Credentials, Param, Find;
    hide HeadersText, Body, Clean, Harmless, Holds;
    AnswerByCode(a, s, i);
    ChallengeIsParsed(s, line, hs, k);
    var value := Body(hs[k].value);
    HeldIsRead(value, "realm", realm, front);
    HeldIsRead(value, "nonce", nonce, middle);
    ParamStays(value, "\r", "realm");
    ParamStays(value, "\r", "nonce");
    if CleanAccount(a) {
      ClearOfReturns(hs[k]);
      CredentialsHaveNoReturn(a, value);
      InviteReads(a, s.cseq + 1, i.branch, Credentials(a, realm, nonce));
    }
  }

  /** So, in every run, a step that receives such a challenge sends an INVITE that carries the credentials
      for it, and the first number of the call plus the number of challenges up to this one. */
  lemma RunAnswersChallenge(a: Account, s: Call, inputs: seq<Input>, i: Input, line: string, hs: seq<Header>,
                            k: nat, realm: string, nonce: string, front: string, middle: string)
    requires Initial(s) && Legal(a, s, inputs)
    requires var u := Run(a, s, inputs);
             u.v == VStart && !u.callEnd && u.sip == InviteSent && SessionDefined(a, u, i)
    requires ChallengeAt(hs, k) && Harmless(hs, k, "WWW-Authenticate")
    requires "SIP/2.0 401" <= line && !Occurs(line, "WWW-Authenticate")
    requires i.sip == Some(line + "\r\n" + HeadersText(hs)) && '\0' !in i.sip.value
    requires Holds(Body(hs[k].value), "realm", realm, front) && Holds(Body(hs[k].value), "nonce", nonce, middle)
    ensures Legal(a, s, inputs + [i])
    ensures var u, t := Run(a, s, inputs), Run(a, s, inputs + [i]);
            var n := s.cseq + Count(u.log, IsChallenge) + 1;
            && t.cseq == n && t.authString == Credentials(a, realm, nonce)
            && t.log == u.log + [PolledSip, Answered(401, t.ans.auth),
                                 Invited(n, Invite(a, n, i.branch, Credentials(a, realm, nonce)), i.sendOk)]
  {
    hide Run, Legal, Step, Session, SessionDefined, Invite, Credentials, Count, CleanAccount, ReadsAsInvite;
    hide HeadersText, Harmless, Holds, ChallengeAt, Body, Find;
    OneStepMore(a, s, inputs, i);
    SequenceNumbers(a, s, inputs);
    ChallengeIsAnswered(a, Run(a, s, inputs), i, line, hs, k, realm, nonce, front, middle);
  }

  lemma OneStepMore(a: Account, s: Call, inputs: seq<Input>, i: Input)
    requires Initial(s) && Legal(a, s, inputs)
    requires var u := Run(a, s, inputs); u.v == VStart && !u.callEnd && SessionDefined(a, u, i)
    ensures Legal(a, s, inputs + [i]) && Run(a, s, inputs + [i]) == Session(a, Run(a, s, inputs), i)
  {
    hide Session, SessionDefined;
    assert (inputs + [i])[..|inputs|] == inputs;
  }

  // ---- The other steps ----

  /** The main program's four states. */
  lemma MainDecides(a: Account, s: Call, i: Input)
    requires WellFormed(s) && Defined(a, s, i)
    ensures var t := Step(a, s, i);
            && (s.v == VInit ==> t.v == VStart && t.sip == s.sip && !t.callEnd && t.log == s.log)
            && (s.v == VStart && !s.callEnd ==> t == Session(a, s, i) && t.v == VStart)
            && (s.v == VStart && s.callEnd ==> t == s.(v := VClose))
            && (s.v == VClose ==> t == s.(v := VEnd))
            && (s.v == VEnd ==> t == s)
  {
    var o := StepOutline(a, s, i);
    SessionStays(s, Step(a, s, i), o);
    hide Session, SessionDefined, Follows;
  }

  lemma SessionStays(s: Call, t: Call, o: Outline)
    requires WellFormed(s) && Follows(s, t, o)
    ensures s.v == VStart && !s.callEnd ==> t.v == VStart
  {
    hide VoiceFollows;
  }

  /** A session begins with an INVITE under the present number and with the present credentials, until
      it is sent. */
  lemma StartDecides(a: Account, s: Call, i: Input)
    requires WellFormed(s) && SessionDefined(a, s, i) && s.sip == Start
    ensures var t := Session(a, s, i);
            && t == s.(buf := t.buf, sip := if i.sendOk then InviteSent else Start, log := t.log)
            && t.log == s.log + [Invited(s.cseq, Invite(a, s.cseq, i.branch, s.authString), i.sendOk)]
  {
    hide Invite, StrCpy;
  }

  /** While nothing is received it waits, and at its end it closes both sockets. */
  lemma SilenceDecides(a: Account, s: Call, i: Input)
    requires WellFormed(s) && SessionDefined(a, s, i) && i.sip.None?
    ensures var t := Session(a, s, i);
            && (s.sip == InviteSent ==> t == s.(log := s.log + [PolledSip]))
            && (s.sip == InviteCompleted ==> t == Talk(s, i).(log := Talk(s, i).log + [PolledSip]))
            && (s.sip == ByeCompleted ==> t == s.(callEnd := true, log := s.log + [ClosedSip, ClosedRtp]))
  {
    hide Invite, Ok200, StrCpy, Talk;
  }

  /** An INVITE is copied over the text buffer, whose remainder stays; an ACK and the answer to BYE are
      copied into a cleared buffer. */
  lemma BufferAfterSend(a: Account, s: Call, i: Input)
    requires WellFormed(s) && SessionDefined(a, s, i)
    ensures s.sip == Start ==>
              var text, buf := Invite(a, s.cseq, i.branch, s.authString), Session(a, s, i).buf;
              buf == text + "\0" + s.buf[|text| + 1..]
    ensures s.sip == ByeSent ==> HoldsAlone(Session(a, s, i).buf, Ok200(s.ans))
    ensures s.sip == InviteSent && Session(a, s, i).sip != InviteSent ==>
              HoldsAlone(Session(a, s, i).buf, Ack(a, Session(a, s, i).ans))
  {
    hide Invite, Ok200, Await, Readable, AnswerDefined;
    if s.sip == InviteSent {
      hide Session;
      AckIsAlone(a, s, i);
    }
  }

  lemma AckIsAlone(a: Account, s: Call, i: Input)
    requires WellFormed(s) && s.sip == InviteSent && SessionDefined(a, s, i)
    ensures Session(a, s, i).sip != InviteSent ==> HoldsAlone(Session(a, s, i).buf, Ack(a, Session(a, s, i).ans))
  {
    hide Invite, Ack, Credentials, Param, Parse, CString, Readable, StrCpy, Blank, HoldsAlone;
    var ans := Session(a, s, i).ans;
    if Session(a, s, i).sip != InviteSent {
      CopiedAlone(Ack(a, ans));
    }
  }

  lemma CopiedAlone(text: string)
    requires |text| < 1024
    ensures HoldsAlone(StrCpy(Blank(), text), text)
  {
  }

  /** The text, and zeros up to the end of the 1024 bytes. */
  predicate HoldsAlone(buf: string, text: string) {
    |text| < |buf| == 1024 && buf[..|text|] == text && forall k :: |text| <= k < 1024 ==> buf[k] == '\0'
  }

  /** A packet that arrives in the established call is answered, behind its own header of 12 bytes, with
      the next 160 bytes of the file, or with what is left of it and zeros; the position moves on by as
      much, and the file counts as sent when it reaches the size. Afterwards the 160 bytes behind the
      header are recorded instead. */
  lemma PacketDecides(s: Call, i: Input)
    requires WellFormed(s) && i.rtp.Some? && 12 <= |i.rtp.value| <= 1024
    ensures var t, packet := Talk(s, i), i.rtp.value;
            var n := if s.fsize <= s.bufPoint then 0 else Min(160, s.fsize - s.bufPoint);
            && (!s.messTrans ==>
                  && t.bufPoint == s.bufPoint + n && t.messTrans == (s.bufPoint + n == s.fsize)
                  && t.log == s.log + [PolledRtp, SentRtp(packet[..12] + FileBytes(s, n) + Zeros(160 - n))])
            && (s.messTrans ==>
                  && t.messTrans
                  && t.log == s.log + [PolledRtp, Recorded((packet + s.rtp[|packet|..])[12..172])])
  {
    assert Overlay(s.rtp, i.rtp.value)[..12] == i.rtp.value[..12];
    var n := ChunkSize(s.bufPoint, s.fsize);
    if n > 0 {
      assert s.filebuf[s.bufPoint + 1..s.bufPoint + 1 + n] == FileBytes(s, n);
    }
  }

  /** The bytes of the file buffer behind the position. */
  function FileBytes(s: Call, n: nat): seq<Byte>
    requires n > 0 ==> s.bufPoint + n < |s.filebuf|
  {
    if n == 0 then [] else s.filebuf[s.bufPoint + 1..][..n]
  }
}
