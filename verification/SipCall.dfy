/** One call as sip_call.c conducts it: the two-level state machine, one step at a time, against
    an arbitrary network and file system. */
module SipCall {
  import opened Buffers
  import opened Words
  import opened CText
  import opened SipText
  import opened SipRequests
  import HttpDigest

  const BUFSIZE := 1024
  const FILEBUFSIZE := 512000
  const WAV_HEADER := 54

  // ---- Credentials ----

  /** The bytes of a C string, and the characters of bytes. */
  function Bytes(s: string): (b: seq<Byte>)
    ensures |b| == |s|
  {
    seq(|s|, i requires 0 <= i < |s| => s[i] as int % 0x100)
  }

  function Chars(b: seq<Byte>): (s: string)
    ensures |s| == |b|
  {
    seq(|b|, i requires 0 <= i < |b| => b[i] as char)
  }

  function Uri(a: Account): string {
    "sip:" + a.phoneNumber + "@" + a.serverIp
  }

  /** The response of RFC 2617 to a challenge, for an INVITE and without a qop. */
  function Response(a: Account, realm: string, nonce: string): seq<Byte> {
    HttpDigest.H(DigestedText(a, realm, nonce))
  }

  function DigestedText(a: Account, realm: string, nonce: string): seq<Byte> {
    var a1 := HttpDigest.A1(Bytes("MD5"), Bytes(a.ownNumber), Bytes(realm), Bytes(a.ownPass), Bytes(nonce), []);
    var a2 := HttpDigest.A2([], Bytes("INVITE"), Bytes(Uri(a)), Zeros(32));
    HttpDigest.ResponseText(HttpDigest.H(a1), Bytes(nonce), Bytes("00000001"), [], [], HttpDigest.H(a2))
  }

  lemma BytesConcat(s: string, t: string)
    ensures Bytes(s + t) == Bytes(s) + Bytes(t)
  {
  }

  /** Written out: the hash of user, realm and password, then the nonce, then the hash of the method
      and the address, with colons between them. The name of the algorithm is not md5-sess. */
  lemma DigestedTextIs(a: Account, realm: string, nonce: string)
    ensures DigestedText(a, realm, nonce)
         == HttpDigest.H(Bytes(a.ownNumber + ":" + realm + ":" + a.ownPass)) + Bytes(":" + nonce + ":")
            + HttpDigest.H(Bytes("INVITE:sip:" + a.phoneNumber + "@" + a.serverIp))
  {
    hide HttpDigest.H, Bytes, DigestedText;
    DigestedBytes(a, realm, nonce);
    ColonBytes(a.ownNumber, realm);
    ColonBytes(a.ownNumber + ":" + realm, a.ownPass);
    ColonBytes("INVITE", Uri(a));
    MethodAndAddress(a);
    BetweenColons(nonce);
  }

  lemma MethodAndAddress(a: Account)
    ensures "INVITE" + ":" + Uri(a) == "INVITE:sip:" + a.phoneNumber + "@" + a.serverIp
  {
  }

  lemma BetweenColons(nonce: string)
    ensures Bytes(":" + nonce + ":") == [0x3a] + Bytes(nonce) + [0x3a]
  {
    hide Bytes;
    BytesConcat(":" + nonce, ":");
    BytesConcat(":", nonce);
    OneColon();
  }

  lemma DigestedBytes(a: Account, realm: string, nonce: string)
    ensures DigestedText(a, realm, nonce)
         == HttpDigest.H(Bytes(a.ownNumber) + [0x3a] + Bytes(realm) + [0x3a] + Bytes(a.ownPass))
            + ([0x3a] + Bytes(nonce) + [0x3a]) + HttpDigest.H(Bytes("INVITE") + [0x3a] + Bytes(Uri(a)))
  {
    NeitherForm();
    hide HttpDigest.H, HttpDigest.A1, HttpDigest.A2, HttpDigest.ResponseText, HttpDigest.SameIgnoringCase, Bytes;
    var user, password, uri := Bytes(a.ownNumber), Bytes(a.ownPass), Bytes(Uri(a));
    var hA1, hA2 := HttpDigest.H(user + [0x3a] + Bytes(realm) + [0x3a] + password),
                    HttpDigest.H(Bytes("INVITE") + [0x3a] + uri);
    HttpDigest.A1Is(Bytes("MD5"), user, Bytes(realm), password, Bytes(nonce), []);
    HttpDigest.A2Is([], Bytes("INVITE"), uri, Zeros(32));
    HttpDigest.ResponseTextIs(hA1, Bytes(nonce), Bytes("00000001"), [], [], hA2);
    assert Bytes("INVITE") + [0x3a] + uri + [] == Bytes("INVITE") + [0x3a] + uri;
    assert hA1 + [0x3a] + Bytes(nonce) + [0x3a] + [] + hA2 == hA1 + ([0x3a] + Bytes(nonce) + [0x3a]) + hA2;
  }

  lemma OneColon()
    ensures Bytes(":") == [0x3a]
  {
  }

  lemma NeitherForm()
    ensures !HttpDigest.SameIgnoringCase(Bytes("MD5"), HttpDigest.MD5_SESS)
    ensures !HttpDigest.SameIgnoringCase([], HttpDigest.AUTH_INT)
  {
  }

  lemma ColonBytes(s: string, t: string)
    ensures Bytes(s + ":" + t) == Bytes(s) + [0x3a] + Bytes(t)
  {
    BytesConcat(s + ":", t);
    BytesConcat(s, ":");
    OneColon();
  }

  /** The text of CreateAuthString. */
  function Credentials(a: Account, realm: string, nonce: string): string {
    AuthText(a.ownNumber, realm, nonce, Uri(a), Chars(Response(a, realm, nonce)))
  }

  // ---- State, inputs and actions ----

  datatype Option<+T> = None | Some(value: T)

  datatype Vyzov = VInit | VStart | VClose | VEnd

  datatype SipState = Start | InviteSent | InviteCompleted | ByeSent | ByeCompleted

  /** What the environment does in one step: the file read at the start, the number that random()
      returns, whether a send succeeds, whether the output file can be opened, and what the two
      sockets deliver. */
  datatype Input = Input(content: seq<Byte>, branch: int, sendOk: bool, openOk: bool,
                         rtp: Option<seq<Byte>>, sip: Option<string>)

  /** What the program does to the outside, in order: the calls it makes and how those turned out
      that can fail, and the answers it got, with their challenge. Recorded is 160 calls of fputc. */
  datatype Action =
    | Invited(cseq: int, text: string, ok: bool)
    | Acked(text: string)
    | SentOk(text: string, ok: bool)
    | PolledSip
    | Answered(code: int, auth: string)
    | PolledRtp
    | SentRtp(packet: seq<Byte>)
    | Opened(ok: bool)
    | Recorded(window: seq<Byte>)
    | Closed
    | ClosedSip
    | ClosedRtp

  datatype Call = Call(v: Vyzov, sip: SipState, callEnd: bool, messTrans: bool, bufPoint: nat,
                       returnCode: int, cseq: int, fsize: nat, filebuf: seq<Byte>, buf: string,
                       rtp: seq<Byte>, ans: SipMessage, realm: string, nonce: string,
                       authString: string, log: seq<Action>)

  predicate WellFormed(s: Call) {
    |s.buf| == BUFSIZE && |s.rtp| == BUFSIZE && |s.filebuf| == FILEBUFSIZE && s.fsize < FILEBUFSIZE
  }

  // ---- Buffers ----

  /** Data written over the start of a buffer. */
  function Overlay<T>(buffer: seq<T>, data: seq<T>): (b: seq<T>)
    requires |data| <= |buffer|
    ensures |b| == |buffer|
  {
    data + buffer[|data|..]
  }

  /** strcpy into a buffer that is large enough. */
  function StrCpy(buffer: string, text: string): string
    requires |text| < |buffer|
  {
    Overlay(buffer, text + "\0")
  }

  function Blank(): string {
    seq(BUFSIZE, i => '\0')
  }

  /** The C string at the start of a buffer that has a terminating zero. */
  function CString(buffer: string): string
    requires Occurs(buffer, "\0")
  {
    buffer[..Find(buffer, "\0")]
  }

  /** What the parser makes of a receive. The program does not end the received text, so the text
      runs on into what the buffer held behind it, up to the zero there: it is exactly the received
      text if and only if the buffer had a zero right behind it. */
  lemma ReceivedText(buffer: string, data: string)
    requires '\0' !in data && |data| <= |buffer|
    ensures Occurs(Overlay(buffer, data), "\0") <==> Occurs(buffer[|data|..], "\0")
    ensures Occurs(buffer[|data|..], "\0") ==>
              var seen := CString(Overlay(buffer, data));
              && seen == data + CString(buffer[|data|..])
              && (seen == data <==> buffer[|data|] == '\0')
  {
    hide Find;
    var tail := buffer[|data|..];
    if Occurs(tail, "\0") {
      var k := Find(tail, "\0");
      var text := data + tail[..k];
      forall j | 0 <= j < k ensures tail[j] != '\0' {
        if tail[j] == '\0' {
          assert tail[j..j + 1] == "\0";
          FindIsFirst(tail, "\0", j);
        }
      }
      assert tail[k..k + 1] == "\0";
      assert Overlay(buffer, data) == text + ['\0'] + tail[k + 1..];
      FindCharacter(text, '\0', tail[k + 1..]);
    } else if Occurs(Overlay(buffer, data), "\0") {
      var k := Find(Overlay(buffer, data), "\0");
      assert Overlay(buffer, data)[k..k + 1] == "\0" && Overlay(buffer, data)[k] == '\0';
      assert tail[k - |data|..k - |data| + 1] == "\0";
      FindIsFirst(tail, "\0", k - |data|);
    }
  }

  /** So every field that a received message ending in a line feed has is read as it is, and every
      field it lacks is read from what the buffer held behind it. */
  lemma ReceivedFields(buffer: string, data: string, k: nat)
    requires '\0' !in data && |data| <= |buffer| && Occurs(buffer[|data|..], "\0") && k < |FIELD_NAMES|
    requires data != "" && data[|data| - 1] == '\n' && Occurs(data, "SIP") && Parsable(data)
    ensures Occurs(Overlay(buffer, data), "\0") && FIELD_NAMES[k] != ""
    ensures var seen, leftover := CString(Overlay(buffer, data)), CString(buffer[|data|..]);
            Field(seen, FIELD_NAMES[k]) ==
            if Field(data, FIELD_NAMES[k]).Found? then Field(data, FIELD_NAMES[k]) else Field(leftover, FIELD_NAMES[k])
  {
    hide Find, Field, Parsable, CString;
    ReceivedText(buffer, data);
    var front := data[..|data| - 1];
    assert data == front + "\n";
    LeftoverFields(front, CString(buffer[|data|..]), k);
  }

  // ---- Receiving ----

  /** What the parser sees after a receive: the data over the old contents of the buffer, whose
      remainder stays. */
  predicate Readable(s: Call, data: string)
    requires WellFormed(s)
  {
    && |data| <= BUFSIZE
    && Occurs(Overlay(s.buf, data), "\0")
    && Parsable(CString(Overlay(s.buf, data))) && Storable(CString(Overlay(s.buf, data)))
  }

  function Received(s: Call, data: string): (t: Call)
    requires WellFormed(s) && Readable(s, data)
    ensures WellFormed(t)
  {
    var buf := Overlay(s.buf, data);
    s.(buf := buf, ans := Parse(CString(buf)))
  }

  // ---- The steps of Vyzov_sip ----

  function Logged(s: Call, actions: seq<Action>): (t: Call)
    ensures WellFormed(s) ==> WellFormed(t)
  {
    s.(log := s.log + actions)
  }

  function RealmOf(ans: SipMessage): string {
    Param(ans.auth, "realm").Text()
  }

  function NonceOf(ans: SipMessage): string {
    Param(ans.auth, "nonce").Text()
  }

  /** The realm and the nonce of a challenge are what GetParam reads back from the credentials that
      answer it, unless the user name, or for the nonce the realm, holds the word searched for. */
  lemma ChallengeIsEchoed(a: Account, ans: SipMessage)
    requires '"' !in a.ownNumber && '"' !in Uri(a)
    ensures var realm, nonce := RealmOf(ans), NonceOf(ans);
            var c := Credentials(a, realm, nonce);
            && Param(c, "realm") == Found(if Occurs(a.ownNumber, "realm") then ",realm=" else realm)
            && Param(c, "nonce") == Found(if Occurs(a.ownNumber, "nonce") then ",realm="
                                          else if Occurs(realm, "nonce") then ",nonce=" else nonce)
  {
    hide Find, Param, Response, Uri, AuthText;
    var realm, nonce := RealmOf(ans), NonceOf(ans);
    var response := Chars(Response(a, realm, nonce));
    ParamHasNoQuote(ans.auth, "realm");
    ParamHasNoQuote(ans.auth, "nonce");
    ResponseIsHex(a, realm, nonce);
    AuthRealmRead(a.ownNumber, realm, nonce, Uri(a), response);
    AuthNonceRead(a.ownNumber, realm, nonce, Uri(a), response);
  }

  lemma ResponseIsHex(a: Account, realm: string, nonce: string)
    ensures '"' !in Chars(Response(a, realm, nonce)) && '\r' !in Chars(Response(a, realm, nonce))
  {
    hide DigestedText, HttpDigest.H;
    HashIsHex(DigestedText(a, realm, nonce));
  }

  lemma HashIsHex(data: seq<Byte>)
    ensures '"' !in Chars(HttpDigest.H(data)) && '\r' !in Chars(HttpDigest.H(data))
  {
    hide HttpDigest.Hex;
    HttpDigest.HexIsReadable(HttpDigest.Md5Spec.Digest(data));
    var h := HttpDigest.H(data);
    assert forall k :: 0 <= k < |h| ==> h[k] in h && Chars(h)[k] == h[k] as char;
  }

  /** A challenge is taken up: the sequence number goes up, and there are credentials for it. */
  function Challenged(a: Account, s: Call): (t: Call)
    ensures WellFormed(s) ==> WellFormed(t)
  {
    var realm, nonce := RealmOf(s.ans), NonceOf(s.ans);
    s.(cseq := s.cseq + 1, realm := realm, nonce := nonce, authString := Credentials(a, realm, nonce))
  }

  predicate ChallengeDefined(a: Account, ans: SipMessage, cseq: int, branch: int) {
    && !Param(ans.auth, "realm").Unterminated? && !Param(ans.auth, "nonce").Unterminated?
    && |RealmOf(ans)| < FIELD_SIZE && |NonceOf(ans)| < FIELD_SIZE && |Uri(a)| < FIELD_SIZE
    && |Credentials(a, RealmOf(ans), NonceOf(ans))| < FIELD_SIZE
    && |Invite(a, cseq + 1, branch, Credentials(a, RealmOf(ans), NonceOf(ans)))| < BUFSIZE
  }

  function SendInvite(a: Account, s: Call, i: Input): (t: Call)
    requires WellFormed(s) && |Invite(a, s.cseq, i.branch, s.authString)| < BUFSIZE
    ensures WellFormed(t)
  {
    var text := Invite(a, s.cseq, i.branch, s.authString);
    Logged(s.(buf := StrCpy(s.buf, text)), [Invited(s.cseq, text, i.sendOk)])
  }

  function SendAck(a: Account, s: Call): (t: Call)
    requires WellFormed(s) && |Ack(a, s.ans)| < BUFSIZE
    ensures WellFormed(t)
  {
    Logged(s.(buf := StrCpy(Blank(), Ack(a, s.ans))), [Acked(Ack(a, s.ans))])
  }

  predicate Provisional(code: int) {
    code == 100 || code == 180
  }

  predicate AnswerDefined(a: Account, ans: SipMessage, cseq: int, branch: int) {
    if Provisional(ans.code) then true
    else if ans.code == 401 then ChallengeDefined(a, ans, cseq, branch)
    else |Ack(a, ans)| < BUFSIZE
  }

  /** The challenge is answered with a new INVITE. */
  function TakeUp(a: Account, s: Call, i: Input): (t: Call)
    requires WellFormed(s) && ChallengeDefined(a, s.ans, s.cseq, i.branch)
    ensures WellFormed(t)
  {
    hide Invite, Credentials, Param;
    SendInvite(a, Challenged(a, s), i)
  }

  /** The reaction to the answer that was just parsed. */
  function Answer(a: Account, s: Call, i: Input): (t: Call)
    requires WellFormed(s) && AnswerDefined(a, s.ans, s.cseq, i.branch)
    ensures WellFormed(t)
  {
    hide Invite, Ack, Credentials, ChallengeDefined, Challenged;
    var code := s.ans.code;
    if Provisional(code) then s
    else if code == 401 then TakeUp(a, s, i)
    else if code == 200 then SendAck(a, Logged(s, [Opened(i.openOk)])).(sip := InviteCompleted)
    else SendAck(a, s).(sip := ByeCompleted, returnCode := 2)
  }

  /** How much of the file the next packet carries. */
  function ChunkSize(bufPoint: nat, fsize: nat): (n: nat)
    ensures n <= 160 && (n > 0 ==> bufPoint + n <= fsize)
  {
    if fsize <= bufPoint then 0 else if fsize - bufPoint < 160 then fsize - bufPoint else 160
  }

  /** The reaction to a packet of `bytes` bytes in the packet buffer: the next piece of the file
      is sent until the file is at its end, and afterwards the packet is recorded. */
  function AnswerVoice(s: Call, bytes: nat): (t: Call)
    requires WellFormed(s)
    ensures WellFormed(t)
  {
    if bytes == 0 then s
    else if !s.messTrans then
      var n := ChunkSize(s.bufPoint, s.fsize);
      var chunk := if n == 0 then [] else s.filebuf[s.bufPoint + 1..s.bufPoint + 1 + n];
      var packet := s.rtp[..12] + chunk + Zeros(160 - n);
      Logged(s.(rtp := packet + Zeros(BUFSIZE - 172), bufPoint := s.bufPoint + n,
                messTrans := s.bufPoint + n == s.fsize), [SentRtp(packet)])
    else
      Logged(s.(bufPoint := s.rtp[171]), [Recorded(s.rtp[12..172])])
  }

  /** The RTP half of the established state: a received packet and the reaction to it. */
  function Voice(s: Call, data: seq<Byte>): (t: Call)
    requires WellFormed(s) && |data| <= BUFSIZE
    ensures WellFormed(t)
  {
    AnswerVoice(s.(rtp := Overlay(s.rtp, data)), |data|)
  }

  function Talk(s: Call, i: Input): (t: Call)
    requires WellFormed(s) && (i.rtp.Some? ==> |i.rtp.value| <= BUFSIZE)
    ensures WellFormed(t)
  {
    var t := Logged(s, [PolledRtp]);
    if i.rtp.Some? then Voice(t, i.rtp.value) else t
  }

  function Begin(a: Account, s: Call, i: Input): (t: Call)
    requires WellFormed(s) && |Invite(a, s.cseq, i.branch, s.authString)| < BUFSIZE
    ensures WellFormed(t)
  {
    var t := SendInvite(a, s, i);
    if i.sendOk then t.(sip := InviteSent) else t
  }

  function Await(a: Account, s: Call, i: Input): (t: Call)
    requires WellFormed(s)
    requires i.sip.Some? ==>
               Readable(s, i.sip.value) && AnswerDefined(a, Received(s, i.sip.value).ans, s.cseq, i.branch)
    ensures WellFormed(t)
  {
    if i.sip.None? then Logged(s, [PolledSip])
    else
      var r := Received(s, i.sip.value);
      Answer(a, Logged(r, [PolledSip, Answered(r.ans.code, r.ans.auth)]), i)
  }

  function Converse(s: Call, i: Input): (t: Call)
    requires WellFormed(s) && (i.rtp.Some? ==> |i.rtp.value| <= BUFSIZE)
    requires i.sip.Some? ==> Readable(Talk(s, i), i.sip.value)
    ensures WellFormed(t)
  {
    var t := Talk(s, i);
    if i.sip.None? then Logged(t, [PolledSip])
    else
      var r := Logged(Received(t, i.sip.value), [PolledSip]);
      if r.ans.command == "BYE" then r.(sip := ByeSent) else r
  }

  function Part(s: Call, i: Input): (t: Call)
    requires WellFormed(s) && |Ok200(s.ans)| < BUFSIZE
    ensures WellFormed(t)
  {
    var text := Ok200(s.ans);
    var t := Logged(s.(buf := StrCpy(Blank(), text)), [Closed, SentOk(text, i.sendOk)]);
    if i.sendOk then t.(sip := ByeCompleted) else t
  }

  /** Vyzov_sip. */
  function Session(a: Account, s: Call, i: Input): (t: Call)
    requires WellFormed(s) && SessionDefined(a, s, i)
    ensures WellFormed(t)
  {
    match s.sip
    case Start => Begin(a, s, i)
    case InviteSent => Await(a, s, i)
    case InviteCompleted => Converse(s, i)
    case ByeSent => Part(s, i)
    case ByeCompleted => Logged(s.(callEnd := true), [ClosedSip, ClosedRtp])
  }

  /** What the program relies on in one step of the session: texts fit their buffers and messages
      end, so that no search or copy runs off a buffer. */
  predicate SessionDefined(a: Account, s: Call, i: Input)
    requires WellFormed(s)
  {
    match s.sip
    case Start => |Invite(a, s.cseq, i.branch, s.authString)| < BUFSIZE
    case InviteSent =>
      i.sip.Some? ==> Readable(s, i.sip.value) && AnswerDefined(a, Received(s, i.sip.value).ans, s.cseq, i.branch)
    case InviteCompleted =>
      && (i.rtp.Some? ==> |i.rtp.value| <= BUFSIZE)
      && (i.sip.Some? ==> Readable(Talk(s, i), i.sip.value))
    case ByeSent => |Ok200(s.ans)| < BUFSIZE
    case ByeCompleted => true
  }

  // ---- The steps of main_sip_call ----

  /** The file is read into the buffer together with the end-of-file mark behind it, unless it is
      no longer than a WAV header. */
  function Load(s: Call, content: seq<Byte>): (t: Call)
    requires WellFormed(s) && |content| < FILEBUFSIZE
    ensures WellFormed(t)
  {
    var good := |content| > WAV_HEADER;
    s.(v := VStart, callEnd := false, messTrans := false, fsize := |content|,
       returnCode := if good then 0 else 1,
       filebuf := if good then Overlay(s.filebuf, content + [0xFF]) else s.filebuf)
  }

  predicate Defined(a: Account, s: Call, i: Input)
    requires WellFormed(s)
  {
    match s.v
    case VInit => |i.content| < FILEBUFSIZE
    case VStart => !s.callEnd ==> SessionDefined(a, s, i)
    case _ => true
  }

  /** One call of main_sip_call. */
  function Step(a: Account, s: Call, i: Input): (t: Call)
    requires WellFormed(s) && Defined(a, s, i)
    ensures WellFormed(t)
  {
    match s.v
    case VInit => Load(s, i.content)
    case VStart => if s.callEnd then s.(v := VClose) else Session(a, s, i)
    case VClose => s.(v := VEnd)
    case VEnd => s
  }
}
