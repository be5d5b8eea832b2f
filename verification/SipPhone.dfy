/** sip_call.c in its own form: one object whose methods update the call, the shared text buffers
    and the parsed answer in place. Every method is proved against the functions of SipCall. */
module SipPhone {
  import opened Buffers
  import opened Words
  import opened CText
  import opened SipText
  import opened SipHeaders
  import opened SipRequests
  import opened SipCall
  import opened SipRuns
  import HttpDigest

  /** The user name and the password go to MD5Update as they are, in one piece each, and must leave
      its 32-bit index room; no buffer bounds them. */
  predicate Digestible(a: Account) {
    HttpDigest.Short(Bytes(a.ownNumber)) && HttpDigest.Short(Bytes(a.ownPass))
  }

  /** What main_sip_call_Helen sets before its loop. The file-scope variables keep what an earlier
      call left in them. */
  function Restarted(s: Call): (t: Call)
    ensures WellFormed(s) ==> Initial(t)
  {
    s.(v := VInit, sip := Start, callEnd := false, bufPoint := 0, returnCode := -1, log := [])
  }

  class Phone {
    const account: Account

    // struct sip_call
    var v: Vyzov
    var sip: SipState
    var callEnd: bool
    var messTrans: bool
    var bufPoint: nat
    var returnCode: int

    // The file-scope variables
    var cseq: int
    var fsize: nat
    const filebuf: array<Byte>
    const buf: array<char>
    const rtppacket: array<Byte>
    var sipMess: string
    var sipField: string
    var ans: SipMessage
    var realm: string
    var nonce: string
    var authString: string

    ghost var log: seq<Action>

    ghost function State(): Call
      reads this, filebuf, buf, rtppacket
    {
      Call(v, sip, callEnd, messTrans, bufPoint, returnCode, cseq, fsize, filebuf[..], buf[..],
           rtppacket[..], ans, realm, nonce, authString, log)
    }

    ghost predicate Valid()
      reads this, filebuf, buf, rtppacket
    {
      && Digestible(account) && WellFormed(State())
      && (filebuf as object) != rtppacket && (filebuf as object) != buf && (rtppacket as object) != buf
    }

    constructor (account: Account)
      requires Digestible(account)
      ensures Valid() && Initial(State()) && fresh(filebuf) && fresh(buf) && fresh(rtppacket)
      ensures this.account == account && cseq == 1 && authString == "" && buf[..] == Blank()
      ensures buf.Length == 1024 && rtppacket.Length == 1024 && filebuf.Length == 512000
    {
      this.account := account;
      v, sip, callEnd, messTrans, bufPoint, returnCode := VInit, Start, false, false, 0, -1;
      cseq, fsize, sipMess, sipField, ans, realm, nonce, authString := 1, 0, "", "", EMPTY_MESSAGE, "", "", "";
      filebuf := new Byte[FILEBUFSIZE](i => 0);
      buf := new char[BUFSIZE](i => '\0');
      rtppacket := new Byte[BUFSIZE](i => 0);
      log := [];
      new;
      assert buf[..] == Blank();
    }

    // ---- Reading messages ----

    /** GetField, which leaves its result in SIP_field. */
    method GetField(mess: string, name: string)
      requires name != "" && !Field(mess, name).Unterminated? && |Field(mess, name).Text()| < FIELD_SIZE
      modifies `sipField
      ensures sipField == Field(mess, name).Text()
    {
      sipField := "";
      var r1 := Find(mess, name);
      var n1 := r1 + 1;
      if r1 >= 0 {
        var r2 := Find(mess[n1..], ":");
        var n2 := r2 + 1;
        var r3 := Find(mess[n1..][n2..], "\r");
        var n3 := r3 + 1;
        sipField := mess[n1..][n2..][..n3];
      }
    }

    /** GetParam. */
    method GetParam(mess: string, name: string)
      requires name != "" && !Param(mess, name).Unterminated? && |Param(mess, name).Text()| < FIELD_SIZE
      modifies `sipField
      ensures sipField == Param(mess, name).Text()
    {
      sipField := "";
      var r1 := Find(mess, name);
      var n1 := r1 + 1;
      if r1 >= 0 {
        var r2 := Find(mess[n1..], "\"");
        var n2 := r2 + 1;
        var n3 := Find(mess[n1..][n2..], "\"");
        sipField := mess[n1..][n2..][..n3];
      }
    }

    /** SIP_parser. */
    method SipParser(mess: string)
      requires Parsable(mess) && Storable(mess)
      modifies `sipField, `ans
      ensures ans == Parse(mess)
    {
      hide Field, Find;
      ans := EMPTY_MESSAGE;
      if Occurs(mess, "SIP") {
        FieldNamesAre(mess);
        var n := Find(mess, " ") + 1;
        var mcode := mess[n..Min(n + 3, |mess|)];
        ans := ans.(code := Atoi(mcode));
        if ans.code == 0 {
          ans := ans.(command := mess[..n - 1]);
        }
        GetField(mess, "Via");
        ans := ans.(via := sipField);
        GetField(mess, "From");
        ans := ans.(from := sipField);
        GetField(mess, "To");
        ans := ans.(to := sipField);
        GetField(mess, "Call-ID");
        ans := ans.(callId := sipField);
        GetField(mess, "Server");
        ans := ans.(server := sipField);
        GetField(mess, "CSeq");
        ans := ans.(cseq := sipField);
        GetField(mess, "Allow");
        ans := ans.(allow := sipField);
        GetField(mess, "Supported");
        ans := ans.(supported := sipField);
        GetField(mess, "Contact");
        ans := ans.(contact := sipField);
        GetField(mess, "WWW-Authenticate");
        ans := ans.(auth := sipField);
        GetField(mess, "Content-Lenght");
        ans := ans.(contentLength := Atoi(sipField));
      }
    }

    // ---- Printing messages ----

    /** sprintf at the end of SIP_mess. */
    method Append(text: string)
      modifies `sipMess
      ensures sipMess == old(sipMess) + text
    {
      sipMess := sipMess + text;
    }

    /** One header line: the next one of the headers `hs`, of which `k` are in SIP_mess already. */
    method PrintHeader(h: Header, ghost start: string, ghost hs: seq<Header>, ghost k: nat)
      requires k < |hs| && h == hs[k] && sipMess == start + HeaderPieces(hs[..k])
      modifies `sipMess
      ensures sipMess == start + HeaderPieces(hs[..k + 1])
    {
      OnePieceMore(hs[..k], h);
      assert hs[..k] + [h] == hs[..k + 1];
      Append(h.name + ":" + h.value + "\r\n");
    }

    /** The five headers with which both the answer and the ACK end, and the empty line. */
    method PrintLastHeaders(ghost start: string, ghost hs: seq<Header>, ghost k: nat)
      requires |hs| == k + 5 && sipMess == start + HeaderPieces(hs[..k])
      requires hs[k] == Header("To", ans.to) && hs[k + 1] == Header("Contact", ans.contact)
      requires hs[k + 2] == Header("Call-ID", ans.callId) && hs[k + 3] == Header("CSeq", ans.cseq)
      requires hs[k + 4] == Header("Content-Length", "   " + Dec(ans.contentLength))
      modifies `sipMess
      ensures sipMess == start + HeadersText(hs)
    {
      hide HeaderPieces, HeadersText, HeaderText, Dec;
      PrintHeader(Header("To", ans.to), start, hs, k);
      PrintHeader(Header("Contact", ans.contact), start, hs, k + 1);
      PrintHeader(Header("Call-ID", ans.callId), start, hs, k + 2);
      PrintHeader(Header("CSeq", ans.cseq), start, hs, k + 3);
      PrintHeader(Header("Content-Length", "   " + Dec(ans.contentLength)), start, hs, k + 4);
      Append("\r\n");
      HeadersArePieces(hs);
      assert hs[..k + 5] == hs;
    }

    method Create200()
      modifies `sipMess
      ensures sipMess == Ok200(ans)
    {
      hide HeaderPieces, HeadersText, HeaderText, Dec;
      NoPieces();
      sipMess := "";
      Append("SIP/2.0 200 OK\r\n");
      ghost var start := sipMess;
      ghost var hs := AnswerHeaders(ans);
      assert hs[..0] == [] && start == start + HeaderPieces([]);
      PrintHeader(Header("Via", ans.via), start, hs, 0);
      PrintHeader(Header("From", ans.from), start, hs, 1);
      PrintLastHeaders(start, hs, 2);
    }

    method CreateAck()
      modifies `sipMess
      ensures sipMess == Ack(account, ans)
    {
      hide HeaderPieces, HeadersText, HeaderText, Dec;
      NoPieces();
      sipMess := "";
      Append("ACK sip:" + account.phoneNumber + "@" + account.serverIp + " SIP/2.0" + "\r\n");
      ghost var start := sipMess;
      ghost var hs := AckHeaders(ans);
      assert hs[..0] == [] && start == start + HeaderPieces([]);
      PrintHeader(Header("Via", ans.via), start, hs, 0);
      PrintHeader(Header("From", ans.from), start, hs, 1);
      PrintHeader(Header("Max-Forwards", " 70"), start, hs, 2);
      PrintLastHeaders(start, hs, 3);
    }

    /** One line of an INVITE or a session description: the next one of `lines`. */
    method PrintLine(line: string, ghost lines: seq<string>, ghost k: nat)
      requires k < |lines| && line == lines[k] && sipMess == LinesText(lines[..k])
      modifies `sipMess
      ensures sipMess == LinesText(lines[..k + 1])
    {
      assert lines[..k + 1][..k] == lines[..k];
      Append(line + "\r\n");
    }

    /** The session description, printed before the message that carries it. */
    method CreateSdp() returns (sdp: string)
      modifies `sipMess
      ensures sdp == Sdp(account)
    {
      hide LinesText;
      NoLines();
      ghost var ls := SdpLines(account);
      sipMess := "";
      assert ls[..0] == [];
      PrintLine("v=0", ls, 0);
      PrintLine("o=LONIIS_test 1234567890 1234567890 IN IP4 " + account.ownIp, ls, 1);
      PrintLine("s=LONIIS", ls, 2);
      PrintLine("c=IN IP4 " + account.ownIp, ls, 3);
      PrintLine("t=0 0", ls, 4);
      PrintLine("m=audio " + account.ownRtpPort + " RTP/AVP 0 101", ls, 5);
      PrintLine("a=rtpmap:0 PCMU/8000", ls, 6);
      PrintLine("a=sendrecv", ls, 7);
      PrintLine("a=rtpmap:101 telephone-event/8000", ls, 8);
      PrintLine("a=fmtp:101 0-15", ls, 9);
      PrintLine("", ls, 10);
      sdp := sipMess;
      assert ls[..11] == ls;
    }

    method CreateInvite(branch: int)
      modifies `sipMess
      ensures sipMess == Invite(account, cseq, branch, authString)
    {
      hide LinesText, Sdp, Dec;
      NoLines();
      var sdp := CreateSdp();
      ghost var ls := InviteLines(account, cseq, branch);
      sipMess := "";
      PrintCallLines(branch);
      assert CallLines(account, branch) == ls[..6];
      PrintLine("Call-ID: " + account.callId, ls, 6);
      PrintLine("CSeq: " + Dec(cseq) + " INVITE", ls, 7);
      PrintLine("Allow: PRACK, INVITE, ACK" + ", BYE, CANCEL, UPDATE", ls, 8);
      PrintLine("Supported: 100rel", ls, 9);
      PrintLine("Content-Type: application/sdp", ls, 10);
      PrintLine(CONTENT_LENGTH + Dec(|sdp|), ls, 11);
      assert ls[..12] == ls;
      Append(authString + "\r\n\r\n");
      Append(sdp);
    }

    method PrintCallLines(branch: int)
      requires sipMess == ""
      modifies `sipMess
      ensures sipMess == LinesText(CallLines(account, branch))
    {
      hide LinesText, Dec;
      NoLines();
      ghost var ls := CallLines(account, branch);
      assert ls[..0] == [];
      PrintLine("INVITE sip:" + account.phoneNumber + "@" + account.serverIp + " SIP/2.0", ls, 0);
      PrintLine("Via: SIP/2.0/UDP " + account.ownIp + ":" + account.ownSipPort + ";branch=z9hG4bK" + account.callId
                + Dec(branch) + ";rport", ls, 1);
      PrintLine("From: \"" + account.ownNumber + "\" <sip:" + account.ownNumber + "@" + account.serverIp
                + ">;tag=123456789123456789", ls, 2);
      PrintLine("Max-Forwards: 70", ls, 3);
      PrintLine("To: sip:" + account.phoneNumber + "@" + account.serverIp, ls, 4);
      PrintLine("Contact: <sip:" + account.ownNumber + "@" + account.ownIp + ">", ls, 5);
      assert ls[..6] == ls;
    }

    /** CreateAuthString: the credentials for the realm and the nonce of the challenge. */
    method CreateAuthString()
      requires Digestible(account) && |realm| < FIELD_SIZE && |nonce| < FIELD_SIZE && |Uri(account)| < FIELD_SIZE
      requires |Credentials(account, realm, nonce)| < FIELD_SIZE
      modifies `authString
      ensures authString == Credentials(account, realm, nonce)
    {
      hide HttpDigest.H, HttpDigest.A1, HttpDigest.A2, HttpDigest.ResponseText, AuthText;
      var ha1 := new Byte[33];
      var ha2: seq<Byte> := Zeros(32) + [0];
      var response := new Byte[33];
      var uri := Uri(account);
      HttpDigest.DigestCalcHA1(Bytes("MD5"), Bytes(account.ownNumber), Bytes(realm), Bytes(account.ownPass),
                               Bytes(nonce), [], ha1);
      HttpDigest.DigestCalcResponse(ha1[..], Bytes(nonce), Bytes("00000001"), [], [], Bytes("INVITE"), Bytes(uri),
                                    ha2, response);
      assert ha2[..32] == Zeros(32);
      assert response[..32] == Response(account, realm, nonce);
      authString := AuthText(account.ownNumber, realm, nonce, uri, Chars(response[..32]));
    }

    // ---- The buffers ----

    method CopyText(text: string)
      requires |text| < buf.Length
      modifies buf
      ensures buf[..] == StrCpy(old(buf[..]), text)
    {
      CopyInto(buf, 0, text + "\0");
    }

    method ClearText()
      requires buf.Length == BUFSIZE
      modifies buf
      ensures buf[..] == Blank()
    {
      for k := 0 to BUFSIZE
        invariant forall j :: 0 <= j < k ==> buf[j] == '\0'
      {
        buf[k] := '\0';
      }
    }

    // ---- Vyzov_sip ----

    method SendInviteText(i: Input)
      requires Valid() && |Invite(account, cseq, i.branch, authString)| < BUFSIZE
      modifies this, buf
      ensures Valid() && State() == SendInvite(account, old(State()), i)
    {
      hide Invite;
      CreateInvite(i.branch);
      CopyText(sipMess);
      log := log + [Invited(cseq, sipMess, i.sendOk)];
    }

    method SendAckText()
      requires Valid() && |Ack(account, ans)| < BUFSIZE
      modifies this, buf
      ensures Valid() && State() == SendAck(account, old(State()))
    {
      hide Ack;
      ClearText();
      CreateAck();
      CopyText(sipMess);
      log := log + [Acked(sipMess)];
    }

    /** A challenge: the next sequence number and new credentials. */
    method TakeChallenge()
      requires Valid() && !Param(ans.auth, "realm").Unterminated? && !Param(ans.auth, "nonce").Unterminated?
      requires |RealmOf(ans)| < FIELD_SIZE && |NonceOf(ans)| < FIELD_SIZE && |Uri(account)| < FIELD_SIZE
      requires |Credentials(account, RealmOf(ans), NonceOf(ans))| < FIELD_SIZE
      modifies `cseq, `sipField, `realm, `nonce, `authString
      ensures Valid() && State() == Challenged(account, old(State()))
    {
      hide Invite, Credentials, Param;
      cseq := cseq + 1;
      GetParam(ans.auth, "realm");
      realm := sipField;
      GetParam(ans.auth, "nonce");
      nonce := sipField;
      CreateAuthString();
    }

    method HandleAnswer(i: Input)
      requires Valid() && AnswerDefined(account, ans, cseq, i.branch)
      modifies this, buf
      ensures Valid() && State() == Answer(account, old(State()), i)
    {
      hide Invite, Ack, Credentials, StrCpy, Param;
      if ans.code == 100 {
      } else if ans.code == 180 {
      } else if ans.code == 401 {
        TakeChallenge();
        SendInviteText(i);
      } else if ans.code == 486 {
        SendAckText();
        sip := ByeCompleted;
        returnCode := 2;
      } else if ans.code == 200 {
        log := log + [Opened(i.openOk)];
        SendAckText();
        sip := InviteCompleted;
      } else {
        SendAckText();
        sip := ByeCompleted;
        returnCode := 2;
      }
    }

    method ParseReceived(data: string)
      requires Valid() && Readable(State(), data)
      modifies this, buf
      ensures Valid() && State() == Received(old(State()), data)
    {
      hide Find, Parse, Parsable, Storable;
      CopyInto(buf, 0, data);
      assert buf[..] == Overlay(old(buf[..]), data);
      SipParser(CString(buf[..]));
    }

    method AwaitAnswer(i: Input)
      requires Valid() && sip == InviteSent && SessionDefined(account, State(), i)
      modifies this, buf
      ensures Valid() && State() == Await(account, old(State()), i)
    {
      hide Parse, Answer, AnswerDefined, Readable, CString;
      if i.sip.None? {
        log := log + [PolledSip];
      } else {
        ParseReceived(i.sip.value);
        log := log + [PolledSip, Answered(ans.code, ans.auth)];
        HandleAnswer(i);
      }
    }

    /** The received packet is cleared behind its header, and bytes of the file are put there. */
    method FillPacket() returns (y: nat)
      requires Valid()
      modifies `bufPoint, rtppacket
      ensures y == ChunkSize(old(bufPoint), fsize) && bufPoint == old(bufPoint) + y
      ensures rtppacket[..12] == old(rtppacket[..12])
      ensures forall j :: 12 <= j < 12 + y ==> rtppacket[j] == filebuf[old(bufPoint) + j - 11]
      ensures forall j :: 12 + y <= j < BUFSIZE ==> rtppacket[j] == 0
    {
      for k := 12 to BUFSIZE
        invariant rtppacket[..12] == old(rtppacket[..12])
        invariant forall j :: 12 <= j < k ==> rtppacket[j] == 0
        modifies rtppacket
      {
        rtppacket[k] := 0;
      }
      y := 0;
      while bufPoint < fsize && y < 160
        invariant y <= ChunkSize(old(bufPoint), fsize) && bufPoint == old(bufPoint) + y
        invariant rtppacket[..12] == old(rtppacket[..12])
        invariant forall j :: 12 <= j < 12 + y ==> rtppacket[j] == filebuf[old(bufPoint) + j - 11]
        invariant forall j :: 12 + y <= j < BUFSIZE ==> rtppacket[j] == 0
        modifies `bufPoint, rtppacket
      {
        bufPoint := bufPoint + 1;
        rtppacket[12 + y] := filebuf[bufPoint];
        y := y + 1;
      }
    }

    /** The next packet of the file, behind the header of the packet that was received. */
    method SendChunk()
      requires Valid() && !messTrans
      modifies this, rtppacket
      ensures Valid()
      ensures var s := old(State());
              var n := ChunkSize(s.bufPoint, s.fsize);
              var packet := s.rtp[..12]
                            + (if n == 0 then [] else s.filebuf[s.bufPoint + 1..s.bufPoint + 1 + n]) + Zeros(160 - n);
              State() == Logged(s.(rtp := packet + Zeros(BUFSIZE - 172), bufPoint := s.bufPoint + n,
                                   messTrans := s.bufPoint + n == s.fsize), [SentRtp(packet)])
    {
      hide ChunkSize;
      var y := FillPacket();
      if bufPoint == fsize {
        messTrans := true;
      }
      ghost var chunk := if y == 0 then [] else filebuf[..][old(bufPoint) + 1..old(bufPoint) + 1 + y];
      PacketIs(rtppacket[..], old(rtppacket[..])[..12], chunk);
      log := log + [SentRtp(rtppacket[..172])];
    }

    /** One received packet is written to the output file, byte by byte. */
    method RecordWindow()
      requires Valid() && messTrans
      modifies this
      ensures Valid()
      ensures State() == Logged(old(State()).(bufPoint := rtppacket[171]), [Recorded(rtppacket[12..172])])
    {
      ghost var written: seq<Byte> := [];
      var y := 0;
      while y < 160
        invariant 0 <= y <= 160 && written == rtppacket[12..12 + y]
        invariant y > 0 ==> bufPoint == rtppacket[11 + y]
        modifies `bufPoint
      {
        bufPoint := rtppacket[12 + y];
        y := y + 1;
        written := written + [bufPoint];
      }
      log := log + [Recorded(written)];
    }

    /** A packet of `bytes` bytes is in the packet buffer. */
    method AnswerPacket(bytes: nat)
      requires Valid()
      modifies this, rtppacket
      ensures Valid() && State() == AnswerVoice(old(State()), bytes)
    {
      hide ChunkSize, Zeros;
      if bytes > 0 && !messTrans {
        SendChunk();
      } else if bytes > 0 && messTrans {
        RecordWindow();
      }
    }

    /** The RTP half of the established state. */
    method ExchangeVoice(i: Input)
      requires Valid() && (i.rtp.Some? ==> |i.rtp.value| <= BUFSIZE)
      modifies this, rtppacket
      ensures Valid() && State() == Talk(old(State()), i)
    {
      hide AnswerVoice;
      log := log + [PolledRtp];
      if i.rtp.Some? {
        CopyInto(rtppacket, 0, i.rtp.value);
        assert rtppacket[..] == Overlay(old(rtppacket[..]), i.rtp.value);
        AnswerPacket(|i.rtp.value|);
      }
    }

    method ConverseWithServer(i: Input)
      requires Valid() && sip == InviteCompleted && SessionDefined(account, State(), i)
      modifies this, buf, rtppacket
      ensures Valid() && State() == Converse(old(State()), i)
    {
      hide Talk, Readable, Parse, CString;
      ExchangeVoice(i);
      if i.sip.Some? {
        ParseReceived(i.sip.value);
        if ans.command == "BYE" {
          sip := ByeSent;
        }
      }
      log := log + [PolledSip];
    }

    method PartFromServer(i: Input)
      requires Valid() && sip == ByeSent && SessionDefined(account, State(), i)
      modifies this, buf
      ensures Valid() && State() == Part(old(State()), i)
    {
      hide Ok200;
      log := log + [Closed];
      ClearText();
      Create200();
      CopyText(sipMess);
      log := log + [SentOk(sipMess, i.sendOk)];
      if i.sendOk {
        sip := ByeCompleted;
      }
    }

    /** Vyzov_sip. */
    method VyzovSip(i: Input)
      requires Valid() && SessionDefined(account, State(), i)
      modifies this, buf, rtppacket
      ensures Valid() && State() == Session(account, old(State()), i)
    {
      hide Invite, Readable, AnswerDefined, SendInvite, Await, Converse, Part;
      match sip
      case Start =>
        SendInviteText(i);
        if i.sendOk {
          sip := InviteSent;
        }
      case InviteSent =>
        AwaitAnswer(i);
      case InviteCompleted =>
        ConverseWithServer(i);
      case ByeSent =>
        PartFromServer(i);
      case ByeCompleted =>
        log := log + [ClosedSip, ClosedRtp];
        callEnd := true;
    }

    // ---- main_sip_call ----

    /** The input file is read byte by byte until fgetc reports its end, and that report is stored
        as a byte as well. */
    method LoadFile(content: seq<Byte>)
      requires Valid() && |content| < FILEBUFSIZE
      modifies this, filebuf
      ensures Valid() && State() == Load(old(State()), content)
    {
      returnCode := 0;
      fsize := |content|;
      if fsize > WAV_HEADER {
        var c: int, y: nat := 0, 0;
        while c != -1
          invariant 0 <= y <= |content| + 1 && (c == -1 <==> y == |content| + 1)
          invariant forall j :: 0 <= j < y ==> filebuf[j] == if j < |content| then content[j] else 0xFF
          invariant forall j :: y <= j < filebuf.Length ==> filebuf[j] == old(filebuf[j])
          decreases |content| + 1 - y
          modifies filebuf
        {
          c := if y < |content| then content[y] else -1;
          filebuf[y] := c % 0x100;
          y := y + 1;
        }
        assert filebuf[..] == Overlay(old(filebuf[..]), content + [0xFF]);
      } else {
        returnCode := 1;
      }
      callEnd := false;
      messTrans := false;
      v := VStart;
    }

    /** main_sip_call. */
    method MainSipCall(i: Input) returns (stop: bool)
      requires Valid() && Defined(account, State(), i)
      modifies this, filebuf, buf, rtppacket
      ensures Valid() && State() == Step(account, old(State()), i)
      ensures (stop <==> old(v) == VEnd) && (stop ==> State() == old(State()))
    {
      hide SessionDefined, Session, Load;
      stop := false;
      match v
      case VInit =>
        LoadFile(i.content);
      case VStart =>
        if !callEnd {
          VyzovSip(i);
        } else {
          v := VClose;
        }
      case VClose =>
        v := VEnd;
      case VEnd =>
        stop := true;
    }

    method Restart()
      requires Valid()
      modifies this
      ensures Valid() && State() == Restarted(old(State()))
    {
      returnCode := -1;
      v := VInit;
      sip := Start;
      bufPoint := 0;
      callEnd := false;
      log := [];
    }

    /** main_sip_call_Helen: steps are taken until one reports the end, here for as long as the
        environment acts. Every run of the loop is a run in the sense of SipRuns. */
    method PlaceCall(inputs: seq<Input>) returns (stop: bool, code: int, steps: nat)
      requires Valid() && Legal(account, Restarted(State()), inputs)
      modifies this, filebuf, buf, rtppacket
      ensures Valid() && steps <= |inputs| && Legal(account, Restarted(old(State())), inputs[..steps])
      ensures State() == Run(account, Restarted(old(State())), inputs[..steps])
      ensures stop ==> v == VEnd && code == returnCode
      ensures !stop ==> steps == |inputs|
      ensures cseq == old(cseq) + Count(log, IsChallenge)
      ensures steps == 0 ==> code == -1 && authString == old(authString)
    {
      hide Step, Defined, Restarted;
      ghost var start := Restarted(State());
      Restart();
      stop := false;
      steps := 0;
      while !stop && steps < |inputs|
        invariant steps <= |inputs| && Valid() && Legal(account, start, inputs[..steps])
        invariant State() == Run(account, start, inputs[..steps])
        invariant stop ==> v == VEnd
      {
        LegalPrefix(account, start, inputs, steps + 1);
        assert inputs[..steps + 1][..steps] == inputs[..steps];
        stop := MainSipCall(inputs[steps]);
        steps := steps + 1;
      }
      code := returnCode;
      NumbersContinue(account, old(State()), inputs[..steps]);
    }
  }

  /** Sequence numbers and credentials are carried over from call to call. */
  lemma NumbersContinue(a: Account, s: Call, inputs: seq<Input>)
    requires WellFormed(s) && Legal(a, Restarted(s), inputs)
    ensures var t := Run(a, Restarted(s), inputs);
            && t.cseq == s.cseq + Count(t.log, IsChallenge)
            && (inputs == [] ==> t.returnCode == -1 && t.authString == s.authString)
  {
    hide Step, Legal;
    SequenceNumbers(a, Restarted(s), inputs);
  }

  lemma {:induction false} LegalPrefix(a: Account, s: Call, inputs: seq<Input>, m: nat)
    requires WellFormed(s) && Legal(a, s, inputs) && m <= |inputs|
    ensures Legal(a, s, inputs[..m])
    decreases |inputs|
  {
    hide Defined;
    if m == |inputs| {
      assert inputs[..m] == inputs;
    } else {
      var front := inputs[..|inputs| - 1];
      LegalPrefix(a, s, front, m);
      assert front[..m] == inputs[..m];
    }
  }

  /** A packet buffer that holds a header, a chunk and zeros. */
  lemma PacketIs(buffer: seq<Byte>, header: seq<Byte>, chunk: seq<Byte>)
    requires |buffer| == BUFSIZE && |header| == 12 && |chunk| <= 160 && buffer[..12] == header
    requires forall j :: 0 <= j < |chunk| ==> buffer[12 + j] == chunk[j]
    requires forall j :: 12 + |chunk| <= j < BUFSIZE ==> buffer[j] == 0
    ensures buffer[..172] == header + chunk + Zeros(160 - |chunk|)
    ensures buffer == buffer[..172] + Zeros(BUFSIZE - 172)
  {
    assert buffer[..12 + |chunk|] == header + chunk;
    assert buffer[12 + |chunk|..172] == Zeros(160 - |chunk|);
    assert buffer[172..] == Zeros(BUFSIZE - 172);
  }

  lemma NoLines()
    ensures LinesText([]) == ""
  {
  }

  /** The search for a field stays inside the message, and what it finds fits. */
  predicate FieldReadable(mess: string, name: string) {
    name != "" && !Field(mess, name).Unterminated? && |Field(mess, name).Text()| < FIELD_SIZE
  }

  lemma FieldNamesAre(mess: string)
    requires Parsable(mess) && Storable(mess) && Occurs(mess, "SIP")
    ensures Occurs(mess, " ")
    ensures FieldReadable(mess, "Via") && FieldReadable(mess, "From") && FieldReadable(mess, "To")
    ensures FieldReadable(mess, "Call-ID") && FieldReadable(mess, "Server") && FieldReadable(mess, "CSeq")
    ensures FieldReadable(mess, "Allow") && FieldReadable(mess, "Supported") && FieldReadable(mess, "Contact")
    ensures FieldReadable(mess, "WWW-Authenticate") && FieldReadable(mess, "Content-Lenght")
  {
    hide Find, Field, Parse;
    assert FIELD_NAMES[0] == "Via" && FIELD_NAMES[1] == "From" && FIELD_NAMES[2] == "To";
    assert FIELD_NAMES[3] == "Call-ID" && FIELD_NAMES[4] == "Server" && FIELD_NAMES[5] == "CSeq";
    assert FIELD_NAMES[6] == "Allow" && FIELD_NAMES[7] == "Supported" && FIELD_NAMES[8] == "Contact";
    assert FIELD_NAMES[9] == "WWW-Authenticate" && FIELD_NAMES[10] == "Content-Lenght";
    forall k | 0 <= k < |FIELD_NAMES|
      ensures FieldReadable(mess, FIELD_NAMES[k])
    {
    }
  }
}
